/**
  `valcomb` of riscv_ctg/generator.py: a greedy cover of the value coverpoints.
  The last coverpoint still open is solved, and every open one the solution also
  satisfies is closed with it.  Coverpoints marked #nosat bypass the solver.

  The solver finds a solution whenever there is one, and a coverpoint depends
  only on the variables its text mentions.
 */
module ValueSearch {
  import opened Wrappers
  import opened RegisterAllocation

  /** A term `variable == value` of a #nosat coverpoint: which variables its text mentions, and its value. */
  datatype Term = Term(mentions: nat -> bool, value: int)

  /**
    n coverpoints over the variables 0, 1, ...: what each says, which variables
    it mentions, whether it is marked #nosat and what it then spells out.  For
    floating-point instructions `merged` is the dictionary merge_fields_f makes of
    it, in its order.
   */
  datatype Points = Points(n: nat, holds: (nat, seq<int>) -> bool, mentions: (nat, nat) -> bool,
                           nosat: nat -> bool, terms: nat -> seq<Term>,
                           isFext: bool, merged: nat -> Option<seq<(nat, int)>>)

  /**
    A returned tuple: its values, the coverpoint it was made for, those closed with
    it, and whether it was solved for.
   */
  datatype Tuple = Tuple(values: seq<int>, own: nat, also: seq<nat>, solved: bool)

  /** Values from the domains that satisfy coverpoint i. */
  ghost predicate Solves(ps: Points, domains: seq<seq<int>>, i: nat, t: seq<int>) {
    |t| == |domains| && (forall v | 0 <= v < |t| :: t[v] in domains[v]) && ps.holds(i, t)
  }

  ghost predicate Satisfiable(ps: Points, domains: seq<seq<int>>, i: nat) {
    exists t :: Solves(ps, domains, i, t)
  }

  ghost predicate Oracle(ps: Points, solver: (seq<seq<int>>, nat) -> Option<seq<int>>) {
    forall domains, i :: SolvedBy(ps, domains, i, solver(domains, i))
  }

  ghost predicate SolvedBy(ps: Points, domains: seq<seq<int>>, i: nat, r: Option<seq<int>>) {
    if r.Some? then Solves(ps, domains, i, r.value) else !Satisfiable(ps, domains, i)
  }

  /** A coverpoint has the same value wherever the variables it mentions have. */
  ghost predicate Local(ps: Points) {
    forall i, t, u | |t| == |u| && (forall v | 0 <= v < |t| :: ps.mentions(i, v) ==> t[v] == u[v]) :: ps.holds(i, t)
        <==> ps.holds(i, u)
  }

  // ---------------------------------------------------------------------
  // Cutting the datasets
  // ---------------------------------------------------------------------

  /** Only the first value of each variable the coverpoint does not mention. */
  function Cut(ps: Points, domains: seq<seq<int>>, i: nat): (r: seq<seq<int>>)
    requires forall v | 0 <= v < |domains| :: domains[v] != []
  {
    seq(|domains|, v requires 0 <= v < |domains| => if ps.mentions(i, v) then domains[v] else domains[v][..1])
  }

  /** A variable the coverpoint does not mention has the first value of its dataset. */
  ghost predicate FirstElsewhere(ps: Points, domains: seq<seq<int>>, i: nat, t: seq<int>) {
    forall v | 0 <= v < |t| && v < |domains| && domains[v] != [] && !ps.mentions(i, v) :: t[v] == domains[v][0]
  }

  /** Cutting loses no coverpoint and invents no solution. */
  lemma {:induction false} CutKeepsSatisfiable(ps: Points, domains: seq<seq<int>>, i: nat)
    requires Local(ps) && forall v | 0 <= v < |domains| :: domains[v] != []
    ensures Satisfiable(ps, Cut(ps, domains, i), i) <==> Satisfiable(ps, domains, i)
    ensures forall t | Solves(ps, Cut(ps, domains, i), i, t) ::
              Solves(ps, domains, i, t) && FirstElsewhere(ps, domains, i, t)
  {
    var cut := Cut(ps, domains, i);
    forall t | Solves(ps, cut, i, t) ensures Solves(ps, domains, i, t) && FirstElsewhere(ps, domains, i, t) {
      forall v | 0 <= v < |t| ensures t[v] in domains[v] { assert t[v] in cut[v]; }
    }
    if t :| Solves(ps, domains, i, t) {
      var u := seq(|t|, v requires 0 <= v < |t| => if ps.mentions(i, v) then t[v] else domains[v][0]);
      assert ps.holds(i, u);
      assert Solves(ps, cut, i, u);
    }
  }

  // ---------------------------------------------------------------------
  // Bypassing the solver
  // ---------------------------------------------------------------------

  function Vars(n: nat): (r: seq<nat>)
    ensures |r| == n && forall v | 0 <= v < n :: r[v] == v
  {
    seq(n, v => v)
  }

  function Keys(d: seq<(nat, int)>): (r: seq<nat>)
    ensures |r| == |d| && forall k | 0 <= k < |d| :: r[k] == d[k].0
  {
    seq(|d|, k requires 0 <= k < |d| => d[k].0)
  }

  datatype Bypass = Exit | Partial | Full(values: seq<int>)

  function TermsFor(terms: seq<Term>, v: nat): seq<int> {
    if terms == [] then []
    else (if terms[0].mentions(v) then [terms[0].value] else []) + TermsFor(terms[1..], v)
  }

  /**
    The values of n variables as spelled out: each by just one term.  Keys are
    compared as ordered sets, so a dictionary must have them in order.
   */
  ghost predicate Spelled(ps: Points, i: nat, vars: nat, values: seq<int>) {
    && |values| == vars
    && if ps.isFext then
         ps.merged(i).Some? && Keys(ps.merged(i).value) == Vars(vars)
         && forall v: nat | v < vars :: ps.merged(i).value[v].1 == values[v]
       else forall v | 0 <= v < vars :: TermsFor(ps.terms(i), v) == [values[v]]
  }

  /** A variable is given more than one value. */
  ghost predicate Repeats(ps: Points, i: nat, vars: nat) {
    !ps.isFext && exists v: nat :: v < vars && |TermsFor(ps.terms(i), v)| > 1
  }

  /** What is known of the first v variables once their terms have been looked for. */
  ghost predicate Collected(terms: seq<Term>, d: seq<(nat, int)>, v: nat) {
    && (forall k | 0 <= k < |d| :: d[k].0 < v && TermsFor(terms, d[k].0) == [d[k].1])
    && (forall u: nat | u < v :: |TermsFor(terms, u)| <= 1)
    && |d| <= v && if |d| == v then forall k | 0 <= k < v :: d[k].0 == k else Missing(terms, v)
  }

  ghost predicate Missing(terms: seq<Term>, v: nat) {
    exists u: nat :: u < v && TermsFor(terms, u) == []
  }

  lemma {:induction false} CollectNext(terms: seq<Term>, d: seq<(nat, int)>, v: nat)
    requires Collected(terms, d, v) && |TermsFor(terms, v)| <= 1
    ensures Collected(terms, if TermsFor(terms, v) == [] then d else d + [(v, TermsFor(terms, v)[0])], v + 1)
  {
    if TermsFor(terms, v) == [] {
      assert Missing(terms, v + 1);
    } else if |d| < v {
      var u: nat :| u < v && TermsFor(terms, u) == [];
      assert Missing(terms, v + 1);
    }
  }

  /** The terms of one variable: a second one is an error. */
  method ReadTerm(terms: seq<Term>, d0: seq<(nat, int)>, v: nat) returns (d: seq<(nat, int)>, repeated: bool)
    requires v !in Keys(d0)
    ensures repeated <==> |TermsFor(terms, v)| > 1
    ensures !repeated ==> d == if TermsFor(terms, v) == [] then d0 else d0 + [(v, TermsFor(terms, v)[0])]
  {
    d := d0;
    for j := 0 to |terms|
      invariant d == d0 || (|d| == |d0| + 1 && d[..|d0|] == d0 && d[|d0|].0 == v)
      invariant TermsFor(terms, v) == (if d == d0 then [] else [d[|d0|].1]) + TermsFor(terms[j..], v)
    {
      assert terms[j..][0] == terms[j] && terms[j..][1..] == terms[j + 1..];
      if terms[j].mentions(v) {
        if v in Keys(d) {
          return d, true;
        }
        d := d + [(v, terms[j].value)];
      }
    }
    assert terms[|terms|..] == [];
    repeated := false;
  }

  method ReadTerms(ps: Points, i: nat, vars: nat) returns (r: Bypass)
    requires !ps.isFext
    ensures r.Full? ==> Spelled(ps, i, vars, r.values)
    ensures r.Partial? ==> exists v: nat :: v < vars && TermsFor(ps.terms(i), v) == []
    ensures r.Exit? <==> Repeats(ps, i, vars)
  {
    var d: seq<(nat, int)> := [];
    var terms := ps.terms(i);
    for v := 0 to vars
      invariant Collected(terms, d, v)
    {
      var more, repeated := ReadTerm(terms, d, v);
      if repeated {
        return Exit;
      }
      CollectNext(terms, d, v);
      d := more;
    }
    if Keys(d) != Vars(vars) {
      return Partial;
    }
    return Full(seq(vars, v requires 0 <= v < vars => d[v].1));
  }

  method ReadBypass(ps: Points, i: nat, vars: nat) returns (r: Bypass)
    ensures r.Full? ==> Spelled(ps, i, vars, r.values)
    ensures r.Partial? ==> forall values :: !Spelled(ps, i, vars, values)
    ensures r.Exit? <==> Repeats(ps, i, vars)
  {
    if ps.isFext {
      var d := ps.merged(i);
      if d.None? || Keys(d.value) != Vars(vars) {
        return Partial;
      }
      return Full(seq(vars, v requires 0 <= v < vars => d.value[v].1));
    } else {
      r := ReadTerms(ps, i, vars);
    }
  }

  // ---------------------------------------------------------------------
  // The greedy cover
  // ---------------------------------------------------------------------

  function Closed(ps: Points, open: seq<nat>, t: seq<int>): seq<nat> {
    if open == [] then []
    else (if ps.holds(open[0], t) then [open[0]] else []) + Closed(ps, open[1..], t)
  }

  function StillOpen(ps: Points, open: seq<nat>, t: seq<int>): seq<nat> {
    if open == [] then []
    else (if ps.holds(open[0], t) then [] else [open[0]]) + StillOpen(ps, open[1..], t)
  }

  lemma {:induction false} Divided(ps: Points, open: seq<nat>, t: seq<int>)
    ensures forall i :: i in Closed(ps, open, t) <==> i in open && ps.holds(i, t)
    ensures forall i :: i in StillOpen(ps, open, t) <==> i in open && !ps.holds(i, t)
    ensures |StillOpen(ps, open, t)| <= |open|
  {
    if open != [] {
      Divided(ps, open[1..], t);
      assert forall i :: i in open <==> i == open[0] || i in open[1..];
    }
  }

  lemma {:induction false} StillAscending(ps: Points, open: seq<nat>, t: seq<int>)
    requires Ascending(open)
    ensures Ascending(StillOpen(ps, open, t)) && Ascending(Closed(ps, open, t))
  {
    if open != [] {
      var rest := open[1..];
      assert Ascending(rest) && forall i | i in rest :: open[0] < i;
      StillAscending(ps, rest, t);
      Divided(ps, rest, t);
      AscendingCons(open[0], if ps.holds(open[0], t) then Closed(ps, rest, t) else StillOpen(ps, rest, t));
    }
  }

  lemma {:induction false} AscendingCons(x: nat, s: seq<nat>)
    requires Ascending(s) && forall i | i in s :: x < i
    ensures Ascending([x] + s)
  {
    var r := [x] + s;
    forall i, j | 0 <= i < j < |r| ensures r[i] < r[j] {
      assert r[j] == s[j - 1] && s[j - 1] in s;
    }
  }

  ghost predicate Ascending(s: seq<nat>) {
    forall i, j | 0 <= i < j < |s| :: s[i] < s[j]
  }

  ghost predicate Names(t: Tuple, i: nat) {
    t.own == i || i in t.also
  }

  /**
    A solver tuple is from the datasets, with first values where its coverpoint says
    nothing, and satisfies all it names; a bypass tuple is as spelled and names itself.
   */
  ghost predicate Honest(ps: Points, domains: seq<seq<int>>, t: Tuple) {
    if t.solved then
      && Solves(ps, domains, t.own, t.values) && !ps.nosat(t.own) && FirstElsewhere(ps, domains, t.own, t.values)
      && forall i | i in t.also :: ps.holds(i, t.values)
    else ps.nosat(t.own) && Spelled(ps, t.own, |domains|, t.values) && t.also == []
  }

  /** No tuple names what an earlier one named or, if solved for, satisfied: each was needed. */
  ghost predicate Greedy(ps: Points, tuples: seq<Tuple>) {
    forall j, k | 0 <= j < k < |tuples| :: Needed(ps, tuples[j], tuples[k])
  }

  /** The last coverpoint still open is always taken next; those closed with it come before it, in order. */
  ghost predicate LastFirst(tuples: seq<Tuple>) {
    && (forall j, k | 0 <= j < k < |tuples| :: tuples[j].own > tuples[k].own)
    && (forall k | 0 <= k < |tuples| :: Ascending(tuples[k].also))
    && (forall k | 0 <= k < |tuples| :: forall i | i in tuples[k].also :: i < tuples[k].own)
  }

  ghost predicate Needed(ps: Points, before: Tuple, after: Tuple) {
    forall i | Names(after, i) :: !Names(before, i) && (before.solved ==> !ps.holds(i, before.values))
  }

  /** What became of coverpoint i. */
  ghost predicate Settled(ps: Points, domains: seq<seq<int>>, tuples: seq<Tuple>, i: nat) {
    if exists k :: 0 <= k < |tuples| && Names(tuples[k], i) then true
    else if ps.nosat(i) then !Repeats(ps, i, |domains|) && forall values :: !Spelled(ps, i, |domains|, values)
    else !Satisfiable(ps, domains, i)
  }

  /** Coverpoint i repeats a value when its turn comes: those after it are settled, and nothing has closed it. */
  ghost predicate StopsAt(ps: Points, domains: seq<seq<int>>, tuples: seq<Tuple>, i: nat) {
    && i < ps.n && ps.nosat(i) && Repeats(ps, i, |domains|)
    && (forall k | 0 <= k < |tuples| :: i < tuples[k].own && Untouched(ps, [i], tuples[k]))
    && (forall j: nat | i < j < ps.n :: Settled(ps, domains, tuples, j))
  }

  ghost predicate Cover(ps: Points, domains: seq<seq<int>>, open: seq<nat>, tuples: seq<Tuple>) {
    && Ascending(open) && (forall i | i in open :: i < ps.n)
    && (forall k | 0 <= k < |tuples| :: Honest(ps, domains, tuples[k]))
    && Greedy(ps, tuples) && LastFirst(tuples)
    && (forall i, k | i in open && 0 <= k < |tuples| :: i < tuples[k].own)
    && (forall k | 0 <= k < |tuples| :: Untouched(ps, open, tuples[k]))
    && (forall i: nat | i < ps.n && i !in open :: Settled(ps, domains, tuples, i))
  }

  /** No open coverpoint is named or satisfied by what has been returned. */
  ghost predicate Untouched(ps: Points, open: seq<nat>, t: Tuple) {
    forall i | i in open :: !Names(t, i) && (t.solved ==> !ps.holds(i, t.values))
  }

  lemma {:induction false} Popped(open: seq<nat>, own: nat)
    requires Ascending(open + [own])
    ensures Ascending(open) && (forall i | i in open :: i < own)
    ensures forall i :: i in open + [own] <==> i in open || i == own
  {
    var s := open + [own];
    forall i, j | 0 <= i < j < |open| ensures open[i] < open[j] {
      assert s[i] < s[j];
    }
    forall i | 0 <= i < |open| ensures open[i] < own {
      assert s[i] < s[|open|];
    }
  }

  lemma {:induction false} GreedyMore(ps: Points, tuples: seq<Tuple>, t: Tuple)
    requires Greedy(ps, tuples) && forall k | 0 <= k < |tuples| :: Needed(ps, tuples[k], t)
    ensures Greedy(ps, tuples + [t])
  {
  }

  lemma {:induction false} LastFirstMore(tuples: seq<Tuple>, t: Tuple)
    requires LastFirst(tuples) && (forall k | 0 <= k < |tuples| :: tuples[k].own > t.own)
    requires Ascending(t.also) && forall i | i in t.also :: i < t.own
    ensures LastFirst(tuples + [t])
  {
  }

  lemma {:induction false} SettledStays(ps: Points, domains: seq<seq<int>>, tuples: seq<Tuple>, t: Tuple, i: nat)
    requires Settled(ps, domains, tuples, i) || Names(t, i)
    ensures Settled(ps, domains, tuples + [t], i)
  {
    var tuples' := tuples + [t];
    if Names(t, i) {
      assert Names(tuples'[|tuples|], i);
    } else if k :| 0 <= k < |tuples| && Names(tuples[k], i) {
      assert Names(tuples'[k], i);
    }
  }

  lemma {:induction false} AddTuple(ps: Points, domains: seq<seq<int>>, open: seq<nat>, own: nat, tuples: seq<Tuple>,
                                    t: Tuple, open': seq<nat>)
    requires Cover(ps, domains, open + [own], tuples) && Honest(ps, domains, t) && t.own == own
    requires Ascending(t.also) && forall i | i in t.also :: i in open
    requires Ascending(open') && forall i :: i in open' <==> i in open && i !in t.also
    requires t.solved ==> forall i | i in open' :: !ps.holds(i, t.values)
    ensures Cover(ps, domains, open', tuples + [t])
  {
    Popped(open, own);
    forall k | 0 <= k < |tuples| ensures Needed(ps, tuples[k], t) {
      assert Untouched(ps, open + [own], tuples[k]);
    }
    GreedyMore(ps, tuples, t);
    assert own in open + [own];
    LastFirstMore(tuples, t);
    forall k | 0 <= k <= |tuples| ensures Untouched(ps, open', (tuples + [t])[k]) {
      assert k < |tuples| ==> Untouched(ps, open + [own], tuples[k]);
    }
    forall i: nat | i < ps.n && i !in open' ensures Settled(ps, domains, tuples + [t], i) {
      SettledStays(ps, domains, tuples, t, i);
    }
  }

  lemma {:induction false} Drop(ps: Points, domains: seq<seq<int>>, open: seq<nat>, own: nat, tuples: seq<Tuple>)
    requires Cover(ps, domains, open + [own], tuples)
    requires if ps.nosat(own) then
               !Repeats(ps, own, |domains|) && forall values :: !Spelled(ps, own, |domains|, values)
             else !Satisfiable(ps, domains, own)
    ensures Cover(ps, domains, open, tuples)
  {
    Popped(open, own);
    forall k | 0 <= k < |tuples| ensures Untouched(ps, open, tuples[k]) {
      assert Untouched(ps, open + [own], tuples[k]);
    }
  }

  lemma {:induction false} Stops(ps: Points, domains: seq<seq<int>>, open: seq<nat>, own: nat, tuples: seq<Tuple>)
    requires Cover(ps, domains, open + [own], tuples) && ps.nosat(own) && Repeats(ps, own, |domains|)
    ensures StopsAt(ps, domains, tuples, own)
  {
    Popped(open, own);
    assert own in open + [own];
    forall k | 0 <= k < |tuples| ensures Untouched(ps, [own], tuples[k]) {
      assert Untouched(ps, open + [own], tuples[k]);
    }
  }

  method ValComb(ps: Points, domains: seq<seq<int>>, solver: (seq<seq<int>>, nat) -> Option<seq<int>>)
    returns (tuples: seq<Tuple>, exited: bool)
    requires Oracle(ps, solver) && Local(ps) && forall v | 0 <= v < |domains| :: domains[v] != []
    ensures !exited ==> Cover(ps, domains, [], tuples)
    ensures (forall k | 0 <= k < |tuples| :: Honest(ps, domains, tuples[k])) && Greedy(ps, tuples) && LastFirst(tuples)
    ensures exited ==> exists i: nat :: StopsAt(ps, domains, tuples, i)
  {
    var open: seq<nat> := seq(ps.n, i => i);
    forall i: nat | i < ps.n ensures i in open {
      assert open[i] == i;
    }
    tuples, exited := [], false;
    while open != []
      invariant !exited && Cover(ps, domains, open, tuples)
      decreases |open|
    {
      var own := open[|open| - 1];
      assert open == open[..|open| - 1] + [own] && own in open;
      open := open[..|open| - 1];
      if ps.nosat(own) {
        var b := ReadBypass(ps, own, |domains|);
        match b
        case Exit =>
          Stops(ps, domains, open, own, tuples);
          exited := true;
          break;
        case Partial =>
          Drop(ps, domains, open, own, tuples);
        case Full(values) =>
          var t := Tuple(values, own, [], false);
          Popped(open, own);
          AddTuple(ps, domains, open, own, tuples, t, open);
          tuples := tuples + [t];
      } else {
        CutKeepsSatisfiable(ps, domains, own);
        var solution := solver(Cut(ps, domains, own), own);
        assert SolvedBy(ps, Cut(ps, domains, own), own, solution);
        if solution.None? {
          Drop(ps, domains, open, own, tuples);
        } else {
          var t := Tuple(solution.value, own, Closed(ps, open, solution.value), true);
          Divided(ps, open, solution.value);
          var rest := StillOpen(ps, open, solution.value);
          Popped(open, own);
          StillAscending(ps, open, solution.value);
          AddTuple(ps, domains, open, own, tuples, t, rest);
          open := rest;
          tuples := tuples + [t];
        }
      }
    }
  }

  /**
    Read off the result: a coverpoint for the solver is satisfied by a solved tuple
    just when the datasets can satisfy it.
   */
  lemma {:induction false} CoveredIff(ps: Points, domains: seq<seq<int>>, tuples: seq<Tuple>, i: nat)
    requires Cover(ps, domains, [], tuples) && i < ps.n && !ps.nosat(i)
    ensures (exists k :: 0 <= k < |tuples| && tuples[k].solved && ps.holds(i, tuples[k].values))
            <==> Satisfiable(ps, domains, i)
    ensures Satisfiable(ps, domains, i) ==> exists k :: 0 <= k < |tuples| && Names(tuples[k], i)
  {
    assert Settled(ps, domains, tuples, i);
    if k :| 0 <= k < |tuples| && tuples[k].solved && ps.holds(i, tuples[k].values) {
      assert Honest(ps, domains, tuples[k]);
      assert Solves(ps, domains, i, tuples[k].values);
    }
    if k :| 0 <= k < |tuples| && Names(tuples[k], i) {
      assert Honest(ps, domains, tuples[k]);
    }
  }
}
