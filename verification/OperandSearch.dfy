/**
  `opcomb` of riscv_ctg/generator.py: tuples of operand registers are asked of a
  constraint solver until every requested register and every requested condition
  has had its turn.  A search that fails first requires one register at a time,
  then gives up the demand for different registers, then gives up.

  The solver is python-constraint's backtracking one, taken as a function that
  finds a solution whenever there is one.  The operands are rs1, rs2 and rd.
 */
module OperandSearch {
  import opened Wrappers
  import opened RegisterAllocation

  /** allowed[v] restricts variable v by a constraint of its own; cond is the condition asked for. */
  datatype Problem = Problem(domains: seq<seq<Reg>>, allowed: seq<Option<set<Reg>>>, cond: Option<nat>, distinct: bool)

  /** A condition string: what it says of a tuple, the registers it spells out, and whether it spells any. */
  datatype Conditions = Conditions(holds: (nat, seq<Reg>) -> bool, hard: nat -> set<Reg>, mentions: nat -> bool)

  /** A returned tuple, with what its coverage string claims: the condition popped, registers by position, others. */
  datatype Tuple = Tuple(regs: seq<Reg>, popped: Option<nat>, covered: set<nat>, also: set<nat>)

  ghost predicate AllDifferent(t: seq<Reg>) {
    forall i, j | 0 <= i < j < |t| :: t[i] != t[j]
  }

  ghost predicate Solves(p: Problem, t: seq<Reg>, cs: Conditions) {
    && |t| == |p.domains| == |p.allowed|
    && (forall v | 0 <= v < |t| :: t[v] in p.domains[v] && (p.allowed[v].Some? ==> t[v] in p.allowed[v].value))
    && (p.cond.Some? ==> cs.holds(p.cond.value, t))
    && (p.distinct ==> AllDifferent(t))
  }

  ghost predicate Oracle(solver: Problem -> Option<seq<Reg>>, cs: Conditions) {
    forall p :: if solver(p).Some? then Solves(p, solver(p).value, cs) else forall t :: !Solves(p, t, cs)
  }

  // ---------------------------------------------------------------------
  // Retrying changes nothing
  // ---------------------------------------------------------------------

  function Kept(domain: seq<Reg>, allowed: Option<set<Reg>>): (r: seq<Reg>)
    ensures forall x :: x in r <==> x in domain && (allowed.Some? ==> x in allowed.value)
  {
    if domain == [] then []
    else (if allowed.None? || domain[0] in allowed.value then [domain[0]] else []) + Kept(domain[1..], allowed)
  }

  /**
    The first call has removed from each domain what its own constraint forbids; the
    constraint may since have widened.
   */
  function Again(p: Problem, allowed: seq<Option<set<Reg>>>): Problem
    requires |p.allowed| == |p.domains|
  {
    p.(domains := seq(|p.domains|, v requires 0 <= v < |p.domains| => Kept(p.domains[v], p.allowed[v])),
        allowed := allowed)
  }

  /** Asking again, with conditions that have only grown, has the same answer: none. */
  lemma {:induction false} RetryFails(p: Problem, allowed: seq<Option<set<Reg>>>, solver: Problem -> Option<seq<Reg>>,
                                      cs: Conditions)
    requires Oracle(solver, cs) && |p.allowed| == |p.domains| && |allowed| == |p.allowed|
    requires solver(p).None?
    ensures solver(Again(p, allowed)).None?
  {
    var q := Again(p, allowed);
    forall t ensures !Solves(q, t, cs) {
      if Solves(q, t, cs) { assert Solves(p, t, cs); }
    }
  }

  // ---------------------------------------------------------------------
  // The search
  // ---------------------------------------------------------------------

  /** Which variables get a constraint: all that have registers pending, or just the first. */
  predicate Constrained(pending: seq<set<Reg>>, individual: bool, v: nat)
    requires v < |pending|
  {
    pending[v] != {} && !(individual && exists u :: 0 <= u < v && pending[u] != {})
  }

  function Restrict(pending: seq<set<Reg>>, individual: bool): (r: seq<Option<set<Reg>>>)
    ensures |r| == |pending|
  {
    seq(|pending|, v requires 0 <= v < |pending| =>
      if Constrained(pending, individual, v) then Some(pending[v]) else None)
  }

  function Total(pending: seq<set<Reg>>): nat {
    if pending == [] then 0 else Total(pending[..|pending| - 1]) + |pending[|pending| - 1]|
  }

  function Minus(pending: seq<set<Reg>>, t: seq<Reg>): (r: seq<set<Reg>>)
    requires |t| == |pending|
    ensures |r| == |pending|
  {
    seq(|pending|, v requires 0 <= v < |pending| => pending[v] - {t[v]})
  }

  function Plus(pending: seq<set<Reg>>, rs: set<Reg>): (r: seq<set<Reg>>)
    ensures |r| == |pending|
  {
    seq(|pending|, v requires 0 <= v < |pending| => pending[v] + rs)
  }

  function FlagsLeft(individual: bool, nodiff: bool): nat {
    (if individual then 0 else 1) + (if nodiff then 0 else 1)
  }

  lemma {:induction false} TotalShrinks(a: seq<set<Reg>>, t: seq<Reg>)
    requires |a| == |t|
    ensures Total(Minus(a, t)) <= Total(a)
    ensures (exists v :: 0 <= v < |a| && t[v] in a[v]) ==> Total(Minus(a, t)) < Total(a)
  {
    if a != [] {
      var n := |a| - 1;
      assert Minus(a, t)[..n] == Minus(a[..n], t[..n]);
      TotalShrinks(a[..n], t[..n]);
      assert |a[n] - {t[n]}| == |a[n]| - if t[n] in a[n] then 1 else 0;
      if v :| 0 <= v < |a| && t[v] in a[v] {
        if v < n { assert t[..n][v] in a[..n][v]; }
      }
    }
  }

  /** If anything is pending, some variable is constrained, and a solution takes something off it. */
  lemma {:induction false} SolutionCovers(pending: seq<set<Reg>>, individual: bool, p: Problem, t: seq<Reg>,
                                          cs: Conditions)
    requires p.allowed == Restrict(pending, individual) && Solves(p, t, cs)
    ensures (exists v :: 0 <= v < |pending| && pending[v] != {}) ==>
              exists v :: 0 <= v < |pending| && t[v] in pending[v]
  {
    if v :| 0 <= v < |pending| && pending[v] != {} {
      var u := First(pending, v);
      assert Constrained(pending, individual, u);
      assert p.allowed[u] == Some(pending[u]);
      assert t[u] in pending[u];
    }
  }

  lemma {:induction false} First(pending: seq<set<Reg>>, v: nat) returns (u: nat)
    requires v < |pending| && pending[v] != {}
    ensures u <= v && pending[u] != {} && forall w | 0 <= w < u :: pending[w] == {}
    decreases v
  {
    u := v;
    if w :| 0 <= w < v && pending[w] != {} {
      u := First(pending, w);
    }
  }

  // ---------------------------------------------------------------------
  // What the search keeps
  // ---------------------------------------------------------------------

  ghost predicate Seen(solutions: seq<Tuple>, v: nat, r: Reg) {
    exists k :: 0 <= k < |solutions| && v < |solutions[k].regs| && solutions[k].regs[v] == r
  }

  ghost predicate Met(solutions: seq<Tuple>, c: nat, cs: Conditions) {
    exists k :: 0 <= k < |solutions| && cs.holds(c, solutions[k].regs)
  }

  /** Every register asked for is pending or has been seen in its position. */
  ghost predicate RegistersKept(requested: seq<set<Reg>>, pending: seq<set<Reg>>, solutions: seq<Tuple>) {
    && |pending| == |requested|
    && forall v, r | 0 <= v < |requested| && r in requested[v] :: r in pending[v] || Seen(solutions, v, r)
  }

  /** Every condition asked for is pending, met, or was popped by a search that failed. */
  ghost predicate ConditionsKept(wanted: seq<nat>, opComb: seq<nat>, lost: set<nat>, solutions: seq<Tuple>,
                                 cs: Conditions) {
    && (forall c | c in opComb :: c in wanted)
    && forall c | c in wanted :: c in opComb || c in lost || Met(solutions, c, cs)
  }

  /** A tuple stays in the domains, and its coverage string is true of it. */
  ghost predicate Honest(s: Tuple, domains: seq<seq<Reg>>, cs: Conditions) {
    && |s.regs| == |domains| && (forall v | 0 <= v < |domains| :: s.regs[v] in domains[v])
    && (s.popped.Some? ==> cs.holds(s.popped.value, s.regs))
    && (forall c | c in s.also :: cs.holds(c, s.regs))
  }

  ghost predicate AllHonest(solutions: seq<Tuple>, domains: seq<seq<Reg>>, cs: Conditions, nodiff: bool) {
    forall k | 0 <= k < |solutions| ::
      Honest(solutions[k], domains, cs) && (!nodiff && solutions[k].popped.None? ==> AllDifferent(solutions[k].regs))
  }

  lemma {:induction false} KeptByTuple(requested: seq<set<Reg>>, pending: seq<set<Reg>>, solutions: seq<Tuple>,
                                       s: Tuple)
    requires RegistersKept(requested, pending, solutions) && |s.regs| == |pending|
    ensures RegistersKept(requested, Minus(pending, s.regs), solutions + [s])
  {
    var solutions' := solutions + [s];
    forall v, r | 0 <= v < |requested| && r in requested[v]
      ensures r in Minus(pending, s.regs)[v] || Seen(solutions', v, r)
    {
      if r in pending[v] {
        if r == s.regs[v] { assert solutions'[|solutions|] == s; }
      } else {
        var k :| 0 <= k < |solutions| && v < |solutions[k].regs| && solutions[k].regs[v] == r;
        assert solutions'[k] == solutions[k];
      }
    }
  }

  lemma {:induction false} MetByTuple(wanted: seq<nat>, opComb: seq<nat>, popped: Option<nat>, lost: set<nat>,
                                      solutions: seq<Tuple>, s: Tuple, cs: Conditions)
    requires ConditionsKept(wanted, if popped.Some? then opComb + [popped.value] else opComb, lost, solutions, cs)
    requires popped.Some? ==> cs.holds(popped.value, s.regs)
    ensures ConditionsKept(wanted, opComb, lost, solutions + [s], cs)
  {
    var solutions' := solutions + [s];
    forall c | c in wanted ensures c in opComb || c in lost || Met(solutions', c, cs) {
      if popped == Some(c) {
        assert solutions'[|solutions|] == s;
      } else if Met(solutions, c, cs) {
        var k :| 0 <= k < |solutions| && cs.holds(c, solutions[k].regs);
        assert solutions'[k] == solutions[k];
      }
    }
  }

  ghost predicate NoneEmpty(domains: seq<seq<Reg>>) {
    forall v | 0 <= v < |domains| :: domains[v] != []
  }

  /** With the register demands alone, a search for one register at a time fails only for one that is in no domain. */
  lemma {:induction false} GiveUpMeans(domains: seq<seq<Reg>>, pending: seq<set<Reg>>, p: Problem,
                                       solver: Problem -> Option<seq<Reg>>, cs: Conditions)
    returns (v: nat, r: Reg)
    requires Oracle(solver, cs) && solver(p).None? && p == Problem(domains, Restrict(pending, true), None, false)
    requires |domains| == |pending| && (exists v :: 0 <= v < |pending| && pending[v] != {})
    requires NoneEmpty(domains)
    ensures v < |pending| && r in pending[v] && r !in domains[v]
  {
    var w :| 0 <= w < |pending| && pending[w] != {};
    v := First(pending, w);
    r :| r in pending[v];
    if r in domains[v] {
      var t := seq(|domains|, u requires 0 <= u < |domains| => if u == v then r else domains[u][0]);
      forall u | 0 <= u < |t| ensures t[u] in domains[u] && (p.allowed[u].Some? ==> t[u] in p.allowed[u].value) {
        assert p.allowed[u].Some? <==> Constrained(pending, true, u);
        assert Constrained(pending, true, u) ==> u == v;
      }
      assert Solves(p, t, cs);
    }
  }

  // ---------------------------------------------------------------------
  // One turn
  // ---------------------------------------------------------------------

  predicate Waiting(pending: seq<set<Reg>>) {
    exists v :: 0 <= v < |pending| && pending[v] != {}
  }

  datatype Task = Task(domains: seq<seq<Reg>>, requested: seq<set<Reg>>, wanted: seq<nat>, cs: Conditions)

  /** The loop's variables, and the conditions popped by searches that failed and not put back. */
  datatype Search = Search(pending: seq<set<Reg>>, opComb: seq<nat>, cond: Option<nat>, solutions: seq<Tuple>,
                           individual: bool, nodiff: bool, gaveUp: bool, lost: set<nat>)

  function Popped(s: Search): Option<nat> {
    if s.opComb == [] then None else Some(s.opComb[|s.opComb| - 1])
  }

  function Rest(s: Search): seq<nat> {
    if s.opComb == [] then [] else s.opComb[..|s.opComb| - 1]
  }

  /** `cond`: the condition popped, or the one popped last. */
  function Current(s: Search): Option<nat> {
    if Popped(s).Some? then Popped(s) else s.cond
  }

  /** What a turn asks of the solver. */
  function Posed(k: Task, s: Search): Problem {
    Problem(k.domains, Restrict(s.pending, s.individual), Popped(s), Popped(s).None? && !s.nodiff)
  }

  /** A failed search puts c back: some condition mentions a register, and the pattern finds registers in c. */
  predicate Recognised(k: Task, c: nat) {
    (exists w | w in k.wanted :: k.cs.mentions(w)) && k.cs.hard(c) != {}
  }

  function PutBack(k: Task, c: Option<nat>, opComb: seq<nat>): seq<nat> {
    if c.Some? && Recognised(k, c.value) && c.value !in opComb then opComb + [c.value] else opComb
  }

  function Enlarged(k: Task, c: Option<nat>, pending: seq<set<Reg>>): (r: seq<set<Reg>>)
    ensures |r| == |pending|
  {
    if c.Some? && Recognised(k, c.value) then Plus(pending, k.cs.hard(c.value)) else pending
  }

  function FoundTuple(k: Task, s: Search, t: seq<Reg>): Tuple {
    Tuple(t, Popped(s),
          set v | 0 <= v < |s.pending| && Constrained(s.pending, s.individual, v) :: v,
          set c | c in Rest(s) && k.cs.holds(c, t))
  }

  function AfterFound(k: Task, s: Search, t: seq<Reg>): Search
    requires |t| == |s.pending|
  {
    s.(pending := Minus(s.pending, t), opComb := Rest(s), cond := Current(s),
        solutions := s.solutions + [FoundTuple(k, s, t)])
  }

  function AfterFailed(k: Task, s: Search): Search {
    var opComb := PutBack(k, Current(s), Rest(s));
    Search(Enlarged(k, Current(s), s.pending), opComb, Current(s), s.solutions,
           true, s.individual, s.individual && s.nodiff,
           if Popped(s).Some? && Popped(s).value !in opComb then s.lost + {Popped(s).value} else s.lost)
  }

  function Turn(k: Task, s: Search, solver: Problem -> Option<seq<Reg>>): Search
    requires solver(Posed(k, s)).Some? ==> |solver(Posed(k, s)).value| == |s.pending|
  {
    if solver(Posed(k, s)).Some? then AfterFound(k, s, solver(Posed(k, s)).value) else AfterFailed(k, s)
  }

  predicate Over(s: Search) {
    s.gaveUp || (!Waiting(s.pending) && s.opComb == [])
  }

  /** What every turn keeps. */
  ghost predicate Keeps(k: Task, s: Search) {
    && |k.domains| == |k.requested|
    && RegistersKept(k.requested, s.pending, s.solutions)
    && ConditionsKept(k.wanted, s.opComb, s.lost, s.solutions, k.cs)
    && AllHonest(s.solutions, k.domains, k.cs, s.nodiff)
    && (s.nodiff ==> s.individual) && (s.gaveUp ==> s.nodiff)
    && (s.cond.Some? ==> s.cond.value in k.wanted) && (k.wanted != [] ==> s.cond.Some? || s.opComb != [])
    && |s.lost| + FlagsLeft(s.individual, s.nodiff) <= if s.gaveUp then 3 else 2
  }

  /** How far the search is from its end: failures allowed, then registers and conditions pending. */
  function TurnsLeft(s: Search): nat {
    Total(s.pending) + |s.opComb|
  }

  function FailuresLeft(s: Search): nat {
    if s.gaveUp then 0 else 1 + FlagsLeft(s.individual, s.nodiff)
  }

  lemma {:induction false} OpCombSplit(s: Search)
    ensures s.opComb == if Popped(s).Some? then Rest(s) + [Popped(s).value] else Rest(s)
    ensures forall c :: c in s.opComb <==> c in Rest(s) || Popped(s) == Some(c)
  {
  }

  lemma {:induction false} FoundLess(k: Task, s: Search, t: seq<Reg>)
    requires !Over(s) && Solves(Posed(k, s), t, k.cs)
    ensures |t| == |s.pending| && TurnsLeft(AfterFound(k, s, t)) < TurnsLeft(s)
  {
    SolutionCovers(s.pending, s.individual, Posed(k, s), t, k.cs);
    TotalShrinks(s.pending, t);
  }

  lemma {:induction false} FoundKeeps(k: Task, s: Search, t: seq<Reg>)
    requires Keeps(k, s) && !Over(s) && Solves(Posed(k, s), t, k.cs)
    ensures |t| == |s.pending| && Keeps(k, AfterFound(k, s, t)) && FailuresLeft(AfterFound(k, s, t)) == FailuresLeft(s)
  {
    var found := FoundTuple(k, s, t);
    OpCombSplit(s);
    KeptByTuple(k.requested, s.pending, s.solutions, found);
    MetByTuple(k.wanted, Rest(s), Popped(s), s.lost, s.solutions, found, k.cs);
  }

  lemma {:induction false} FailedKeeps(k: Task, s: Search)
    requires Keeps(k, s) && !Over(s)
    ensures Keeps(k, AfterFailed(k, s)) && FailuresLeft(AfterFailed(k, s)) < FailuresLeft(s)
  {
    OpCombSplit(s);
  }

  ghost predicate Sized(k: Task, s: Search, solver: Problem -> Option<seq<Reg>>) {
    solver(Posed(k, s)).Some? ==> |solver(Posed(k, s)).value| == |s.pending|
  }

  lemma {:induction false} TurnKeeps(k: Task, s: Search, solver: Problem -> Option<seq<Reg>>)
    requires Keeps(k, s) && !Over(s) && Oracle(solver, k.cs)
    ensures Sized(k, s, solver) && Keeps(k, Turn(k, s, solver))
    ensures FailuresLeft(Turn(k, s, solver)) < FailuresLeft(s)
         || (FailuresLeft(Turn(k, s, solver)) == FailuresLeft(s) && TurnsLeft(Turn(k, s, solver)) < TurnsLeft(s))
  {
    var r := solver(Posed(k, s));
    if r.Some? {
      assert Solves(Posed(k, s), r.value, k.cs);
      FoundKeeps(k, s, r.value);
      FoundLess(k, s, r.value);
    } else {
      FailedKeeps(k, s);
    }
  }

  // ---------------------------------------------------------------------
  // The whole search
  // ---------------------------------------------------------------------

  ghost function Run(k: Task, s: Search, solver: Problem -> Option<seq<Reg>>): (r: Search)
    requires Keeps(k, s) && Oracle(solver, k.cs)
    ensures Keeps(k, r) && Over(r)
    decreases FailuresLeft(s), TurnsLeft(s)
  {
    if Over(s) then s
    else
      TurnKeeps(k, s, solver);
      Run(k, Turn(k, s, solver), solver)
  }

  function Begin(k: Task): Search {
    Search(k.requested, k.wanted, None, [], false, false, false, {})
  }

  lemma {:induction false} BeginKeeps(k: Task)
    requires |k.domains| == |k.requested|
    ensures Keeps(k, Begin(k))
  {
  }

  /** The constraints of the first call, over the pending sets as they are now. */
  function Live(allowed: seq<Option<set<Reg>>>, pending: seq<set<Reg>>): (r: seq<Option<set<Reg>>>)
    requires |allowed| == |pending|
    ensures |r| == |allowed|
  {
    seq(|allowed|, v requires 0 <= v < |allowed| => if allowed[v].Some? then Some(pending[v]) else None)
  }

  lemma {:induction false} PlusTwice(pending: seq<set<Reg>>, rs: set<Reg>)
    ensures Plus(Plus(pending, rs), rs) == Plus(pending, rs)
  {
  }

  /**
    The solver call with up to five retries; between them a recognised condition
    goes back, and its registers to every operand, which the retries cannot use.
   */
  method Ask(p: Problem, cond: Option<nat>, ghost k: Task, wanted: seq<nat>, pending: seq<set<Reg>>, opComb: seq<nat>,
             cs: Conditions, solver: Problem -> Option<seq<Reg>>)
    returns (solution: Option<seq<Reg>>, pending': seq<set<Reg>>, opComb': seq<nat>)
    requires Oracle(solver, cs) && |p.domains| == |p.allowed| == |pending| && (wanted != [] ==> cond.Some?)
    requires k.wanted == wanted && k.cs == cs
    ensures solution == solver(p)
    ensures pending' == (if solution.Some? then pending else Enlarged(k, cond, pending))
    ensures opComb' == (if solution.Some? then opComb else PutBack(k, cond, opComb))
  {
    pending', opComb' := pending, opComb;
    solution := solver(p);
    var count := 0;
    while solution.None? && count < 5
      invariant solution == solver(p) && (count == 0 || solution.None?)
      invariant pending' == (if count == 0 then pending else Enlarged(k, cond, pending))
      invariant opComb' == (if count == 0 then opComb else PutBack(k, cond, opComb))
      decreases 5 - count
    {
      if (exists c | c in wanted :: cs.mentions(c)) && cs.hard(cond.value) != {} {
        PlusTwice(pending, cs.hard(cond.value));
        pending' := Plus(pending', cs.hard(cond.value));
        if cond.value !in opComb' {
          opComb' := opComb' + [cond.value];
        }
      }
      RetryFails(p, Live(p.allowed, pending'), solver, cs);
      solution := solver(Again(p, Live(p.allowed, pending')));
      count := count + 1;
    }
  }

  method Pop(opComb: seq<nat>) returns (popped: Option<nat>, rest: seq<nat>)
    ensures opComb == if popped.Some? then rest + [popped.value] else rest
    ensures popped.None? <==> opComb == []
  {
    popped, rest := None, opComb;
    if opComb != [] {
      popped, rest := Some(opComb[|opComb| - 1]), opComb[..|opComb| - 1];
    }
  }

  /** `opcomb` computes what its turns, one after the other, come to. */
  method OpComb(domains: seq<seq<Reg>>, requested: seq<set<Reg>>, wanted: seq<nat>, cs: Conditions,
                solver: Problem -> Option<seq<Reg>>)
    returns (solutions: seq<Tuple>, gaveUp: bool, nodiff: bool, ghost end: Search)
    requires Oracle(solver, cs) && |domains| == |requested|
    ensures Keeps(Task(domains, requested, wanted, cs), Begin(Task(domains, requested, wanted, cs)))
    ensures end == Run(Task(domains, requested, wanted, cs), Begin(Task(domains, requested, wanted, cs)), solver)
    ensures solutions == end.solutions && gaveUp == end.gaveUp && nodiff == end.nodiff
  {
    ghost var k := Task(domains, requested, wanted, cs);
    var pending, opComb := requested, wanted;
    var cond: Option<nat> := None;
    var individual := false;
    nodiff, gaveUp, solutions := false, false, [];
    BeginKeeps(k);
    ghost var s := Begin(k);
    while Waiting(pending) || opComb != []
      invariant s == Search(pending, opComb, cond, solutions, individual, nodiff, gaveUp, s.lost)
      invariant !gaveUp && Keeps(k, s) && Run(k, s, solver) == Run(k, Begin(k), solver)
      decreases FailuresLeft(s), TurnsLeft(s)
    {
      TurnKeeps(k, s, solver);
      ghost var next := Turn(k, s, solver);
      OpCombSplit(s);
      var popped;
      popped, opComb := Pop(opComb);
      cond := if popped.Some? then popped else cond;
      var p := Problem(domains, Restrict(pending, individual), popped, popped.None? && !nodiff);
      assert p == Posed(k, s);
      var solution, pending0 := None, pending;
      solution, pending, opComb := Ask(p, cond, k, wanted, pending, opComb, cs, solver);
      if solution.None? {
        if individual {
          if nodiff {
            gaveUp := true;
            s := next;
            break;
          } else {
            nodiff := true;
          }
        } else {
          individual := true;
        }
      } else {
        var covered := set v | 0 <= v < |pending0| && Constrained(pending0, individual, v) :: v;
        var also := set c | c in opComb && cs.holds(c, solution.value);
        solutions := solutions + [Tuple(solution.value, popped, covered, also)];
        pending := Minus(pending, solution.value);
      }
      s := next;
    }
    end := s;
  }
}
