/**
  What `opcomb` of riscv_ctg/generator.py does with registers a failed condition
  spells out, and what the coverage strings of its tuples claim.
 */
module OperandClaims {
  import opened Wrappers
  import opened RegisterAllocation
  import opened OperandSearch
  import opened OperandOutcomes

  // ---------------------------------------------------------------------
  // What a failed search puts back
  // ---------------------------------------------------------------------

  /** The rest of the search from any of its states ends as the whole does. */
  lemma {:induction false} SameEnd(k: Task, s: Search, solver: Problem -> Option<seq<Reg>>, t: Search)
    requires Keeps(k, s) && Oracle(solver, k.cs) && t in States(k, s, solver)
    ensures Keeps(k, t) && !Over(t) && Run(k, t, solver) == Run(k, s, solver)
    decreases FailuresLeft(s), TurnsLeft(s)
  {
    TurnKeeps(k, s, solver);
    if t != s { SameEnd(k, Turn(k, s, solver), solver, t); }
  }

  /** Whatever has been asked for at some time stays pending until it is seen. */
  lemma {:induction false} AskedKept(k: Task, s: Search, solver: Problem -> Option<seq<Reg>>, asked: seq<set<Reg>>)
    requires Keeps(k, s) && Oracle(solver, k.cs) && RegistersKept(asked, s.pending, s.solutions)
    ensures RegistersKept(asked, Run(k, s, solver).pending, Run(k, s, solver).solutions)
    decreases FailuresLeft(s), TurnsLeft(s)
  {
    if !Over(s) {
      TurnKeeps(k, s, solver);
      var r := solver(Posed(k, s));
      if r.Some? {
        KeptByTuple(asked, s.pending, s.solutions, FoundTuple(k, s, r.value));
      }
      AskedKept(k, Turn(k, s, solver), solver, asked);
    }
  }

  /** The search fails in this turn on c, whose registers the retry recognises. */
  ghost predicate FailsOn(k: Task, t: Search, c: nat) {
    && Unsolvable(Posed(k, t), k.cs) && Current(t) == Some(c)
    && k.cs.hard(c) != {} && exists w :: w in k.wanted && k.cs.mentions(w)
  }

  lemma {:induction false} NoAnswer(p: Problem, solver: Problem -> Option<seq<Reg>>, cs: Conditions)
    requires Oracle(solver, cs) && Unsolvable(p, cs)
    ensures solver(p).None?
  {
  }

  lemma {:induction false} FailedPutsBack(k: Task, t: Search, c: nat)
    requires Current(t) == Some(c) && k.cs.hard(c) != {} && exists w :: w in k.wanted && k.cs.mentions(w)
    ensures var next := AfterFailed(k, t);
            && next.opComb == (if c in Rest(t) then Rest(t) else Rest(t) + [c]) && |next.pending| == |t.pending|
            && forall v | 0 <= v < |t.pending| :: next.pending[v] == t.pending[v] + k.cs.hard(c)
  {
    assert Recognised(k, c);
  }

  /** Then c is pending again, and each of its registers in every operand. */
  lemma {:induction false} PutBackAll(k: Task, t: Search, solver: Problem -> Option<seq<Reg>>, c: nat)
    requires Keeps(k, t) && !Over(t) && Oracle(solver, k.cs) && FailsOn(k, t, c)
    ensures Sized(k, t, solver)
    ensures var next := Turn(k, t, solver);
            && next.opComb == (if c in Rest(t) then Rest(t) else Rest(t) + [c]) && |next.pending| == |t.pending|
            && forall v | 0 <= v < |t.pending| :: next.pending[v] == t.pending[v] + k.cs.hard(c)
  {
    NoAnswer(Posed(k, t), solver, k.cs);
    FailedPutsBack(k, t, c);
  }

  /** So unless the search gives up each of these registers is seen in every operand. */
  lemma {:induction false} HardSeen(k: Task, solver: Problem -> Option<seq<Reg>>, t: Search, c: nat)
    requires |k.domains| == |k.requested| && Oracle(solver, k.cs)
    requires Keeps(k, Begin(k)) && t in States(k, Begin(k), solver) && FailsOn(k, t, c)
    ensures !Outcome(k, solver).gaveUp ==>
              forall v, x | 0 <= v < |k.requested| && x in k.cs.hard(c) :: Seen(Outcome(k, solver).solutions, v, x)
  {
    SameEnd(k, Begin(k), solver, t);
    PutBackAll(k, t, solver, c);
    TurnKeeps(k, t, solver);
    var next, r := Turn(k, t, solver), Outcome(k, solver);
    AskedKept(k, next, solver, next.pending);
    if !r.gaveUp {
      forall v, x | 0 <= v < |k.requested| && x in k.cs.hard(c) ensures Seen(r.solutions, v, x) {
        assert x in next.pending[v] && r.pending[v] == {};
      }
    }
  }

  // ---------------------------------------------------------------------
  // A condition put back and met
  // ---------------------------------------------------------------------

  /** x1 asked for as rs1, and the condition `rs1 == "x2"`, over the registers x1 to x3. */
  ghost predicate Spelled(k: Task) {
    && k.domains == [[X(1), X(2), X(3)], [X(1), X(2), X(3)], [X(1), X(2), X(3)]]
    && k.requested == [{X(1)}, {}, {}] && k.wanted == [0] && k.cs.hard(0) == {X(2)} && k.cs.mentions(0)
    && forall t: seq<Reg> | |t| == 3 :: k.cs.holds(0, t) <==> t[0] == X(2)
  }

  /** Once the condition has been met only single registers are asked for. */
  ghost predicate MetPast(k: Task, s: Search) {
    && Keeps(k, s) && s.opComb == [] && s.individual && !s.nodiff && !s.gaveUp && s.lost == {}
    && |s.pending| == 3 && s.pending[0] <= {X(1)} && s.pending[1] <= {X(2)} && s.pending[2] <= {X(2)}
    && Met(s.solutions, 0, k.cs)
  }

  lemma {:induction false} MetPastSolvable(k: Task, s: Search)
    requires Spelled(k) && MetPast(k, s) && !Over(s)
    ensures !Unsolvable(Posed(k, s), k.cs)
  {
    var p := Posed(k, s);
    var t := if s.pending[0] == {} && s.pending[1] == {} then [X(1), X(3), X(2)] else [X(1), X(2), X(3)];
    forall v | 0 <= v < 3 && p.allowed[v].Some? ensures t[v] in p.allowed[v].value {
      assert Constrained(s.pending, s.individual, v);
      var x :| x in s.pending[v];
    }
    assert Solves(p, t, k.cs);
  }

  lemma {:induction false} MetStays(solutions: seq<Tuple>, s: Tuple, c: nat, cs: Conditions)
    requires Met(solutions, c, cs) || cs.holds(c, s.regs)
    ensures Met(solutions + [s], c, cs)
  {
    var more := solutions + [s];
    assert more[|solutions|] == s;
    if j :| 0 <= j < |solutions| && cs.holds(c, solutions[j].regs) {
      assert more[j] == solutions[j];
    }
  }

  lemma {:induction false} MetPastRun(k: Task, s: Search, solver: Problem -> Option<seq<Reg>>)
    requires Spelled(k) && MetPast(k, s) && Oracle(solver, k.cs)
    ensures MetPast(k, Run(k, s, solver))
    decreases FailuresLeft(s), TurnsLeft(s)
  {
    if !Over(s) {
      TurnKeeps(k, s, solver);
      MetPastSolvable(k, s);
      var r := solver(Posed(k, s));
      assert r.Some?;
      MetStays(s.solutions, FoundTuple(k, s, r.value), 0, k.cs);
      MetPastRun(k, Turn(k, s, solver), solver);
    }
  }

  /** The first search must fail, and puts the condition back and x2 to every operand. */
  lemma {:induction false} SpelledFirst(k: Task, solver: Problem -> Option<seq<Reg>>)
    requires Spelled(k) && Oracle(solver, k.cs) && Keeps(k, Begin(k))
    ensures Sized(k, Begin(k), solver)
    ensures var s1 := Turn(k, Begin(k), solver);
            && s1.pending == [{X(1), X(2)}, {X(2)}, {X(2)}] && s1.opComb == [0] && s1.solutions == []
            && s1.individual && !s1.nodiff && !s1.gaveUp && s1.lost == {}
  {
    var s := Begin(k);
    var p := Posed(k, s);
    TurnKeeps(k, s, solver);
    assert Constrained(s.pending, false, 0) && p.allowed[0] == Some({X(1)});
    assert Unsolvable(p, k.cs);
    assert k.wanted[0] == 0 && FailsOn(k, s, 0);
    PutBackAll(k, s, solver, 0);
    assert {X(1)} + {X(2)} == {X(1), X(2)} && {} + {X(2)} == {X(2)};
  }

  /** The second search meets it. */
  lemma {:induction false} SpelledSecond(k: Task, s: Search, solver: Problem -> Option<seq<Reg>>)
    requires Spelled(k) && Oracle(solver, k.cs) && Keeps(k, s)
    requires s.pending == [{X(1), X(2)}, {X(2)}, {X(2)}] && s.opComb == [0] && s.individual && !s.nodiff
    requires !s.gaveUp && s.lost == {}
    ensures Sized(k, s, solver) && MetPast(k, Turn(k, s, solver))
  {
    var p, t := Posed(k, s), [X(2), X(1), X(1)];
    TurnKeeps(k, s, solver);
    assert Constrained(s.pending, true, 0) && !Constrained(s.pending, true, 1) && !Constrained(s.pending, true, 2);
    assert Solves(p, t, k.cs);
    var r := solver(p);
    assert r.Some? && Solves(p, r.value, k.cs) && r.value[0] == X(2);
    MetStays(s.solutions, FoundTuple(k, s, r.value), 0, k.cs);
  }

  lemma {:induction false} SpelledRest(k: Task, s: Search, solver: Problem -> Option<seq<Reg>>)
    requires Spelled(k) && Oracle(solver, k.cs) && Keeps(k, s)
    requires s.pending == [{X(1), X(2)}, {X(2)}, {X(2)}] && s.opComb == [0] && s.individual && !s.nodiff
    requires !s.gaveUp && s.lost == {}
    ensures MetPast(k, Run(k, s, solver))
  {
    TurnKeeps(k, s, solver);
    SpelledSecond(k, s, solver);
    MetPastRun(k, Turn(k, s, solver), solver);
  }

  /** Whatever the solver answers, the search does not give up, meets the condition and sees x2 in every operand. */
  lemma {:induction false} PutBackThenMet(k: Task, solver: Problem -> Option<seq<Reg>>)
    requires Spelled(k) && Oracle(solver, k.cs)
    ensures var r := Outcome(k, solver);
            && !r.gaveUp && r.lost == {} && Met(r.solutions, 0, k.cs)
            && forall v | 0 <= v < 3 :: Seen(r.solutions, v, X(2))
  {
    BeginKeeps(k);
    var s := Begin(k);
    TurnKeeps(k, s, solver);
    SpelledFirst(k, solver);
    var s1, r := Turn(k, s, solver), Outcome(k, solver);
    assert r == Run(k, s1, solver);
    SpelledRest(k, s1, solver);
    AskedKept(k, s1, solver, s1.pending);
    forall v | 0 <= v < 3 ensures Seen(r.solutions, v, X(2)) {
      assert X(2) in s1.pending[v] && r.pending[v] == {};
    }
  }

  // ---------------------------------------------------------------------
  // Coverage strings
  // ---------------------------------------------------------------------

  /** Register x was asked for in operand v: by the covergroup, or spelled out by a condition put back. */
  ghost predicate Asked(k: Task, v: nat, x: Reg) {
    v < |k.requested| && (x in k.requested[v] || exists c :: c in k.wanted && Recognised(k, c) && x in k.cs.hard(c))
  }

  /** Tuple s claims `operand v == x`. */
  predicate Claims(s: Tuple, v: nat, x: Reg) {
    v in s.covered && v < |s.regs| && s.regs[v] == x
  }

  ghost predicate PoppedBy(solutions: seq<Tuple>, n: nat, c: nat) {
    exists j :: 0 <= j < n && j < |solutions| && solutions[j].popped == Some(c)
  }

  /** A tuple claims only registers asked for, and some register if it was made for no condition. */
  ghost predicate ClaimsAsked(k: Task, s: Tuple) {
    && (forall v | v in s.covered :: v < |s.regs| && Asked(k, v, s.regs[v]))
    && (s.popped.None? ==> s.covered != {})
  }

  /** And every condition true of it, but those an earlier tuple was made for and those lost. */
  ghost predicate ClaimsTrue(k: Task, solutions: seq<Tuple>, j: nat, lost: set<nat>)
    requires j < |solutions|
  {
    forall c | c in k.wanted && k.cs.holds(c, solutions[j].regs) ::
      c in solutions[j].also || PoppedBy(solutions, j + 1, c) || c in lost
  }

  /** Until a search fails each register asked for is pending or claimed. */
  ghost predicate AllClaimed(k: Task, s: Search) {
    !s.individual ==>
      |s.pending| == |k.requested|
      && forall v, x | 0 <= v < |k.requested| && x in k.requested[v] ::
           x in s.pending[v] || ClaimedBy(s.solutions, v, x)
  }

  ghost predicate ClaimedBy(solutions: seq<Tuple>, v: nat, x: Reg) {
    exists j :: 0 <= j < |solutions| && Claims(solutions[j], v, x)
  }

  /** What the coverage strings keep to in every state. */
  ghost predicate ClaimsKept(k: Task, s: Search) {
    && (forall v, x | 0 <= v < |s.pending| && x in s.pending[v] :: Asked(k, v, x))
    && (forall j | 0 <= j < |s.solutions| :: ClaimsAsked(k, s.solutions[j]) && ClaimsTrue(k, s.solutions, j, s.lost))
    && (forall c | c in k.wanted :: c in s.opComb || c in s.lost || PoppedBy(s.solutions, |s.solutions|, c))
    && AllClaimed(k, s)
  }

  lemma {:induction false} PoppedStays(solutions: seq<Tuple>, s: Tuple, n: nat, c: nat)
    requires n <= |solutions|
    ensures PoppedBy(solutions, n, c) ==> PoppedBy(solutions + [s], n, c) && PoppedBy(solutions + [s], n + 1, c)
    ensures s.popped == Some(c) ==> PoppedBy(solutions + [s], |solutions| + 1, c)
  {
    var more := solutions + [s];
    assert more[|solutions|] == s;
    if j :| 0 <= j < n && solutions[j].popped == Some(c) {
      assert more[j] == solutions[j];
    }
  }

  /**
    A tuple claims all operands with registers pending, or once a search has failed
    the first of them only.
   */
  lemma {:induction false} CoveredIs(k: Task, s: Search, t: seq<Reg>, v: nat)
    ensures v in FoundTuple(k, s, t).covered
            <==> v < |s.pending| && s.pending[v] != {}
                 && (s.individual ==> forall u | 0 <= u < v :: s.pending[u] == {})
  {
    if v < |s.pending| {
      assert Constrained(s.pending, s.individual, v)
             <==> s.pending[v] != {} && (s.individual ==> forall u | 0 <= u < v :: s.pending[u] == {});
    }
  }

  /** A new tuple claims what was asked for. */
  lemma {:induction false} FoundClaims(k: Task, s: Search, t: seq<Reg>)
    requires ClaimsKept(k, s) && !Over(s) && Solves(Posed(k, s), t, k.cs) && |t| == |s.pending|
    ensures ClaimsAsked(k, FoundTuple(k, s, t))
    ensures forall v | v in FoundTuple(k, s, t).covered :: t[v] in s.pending[v]
  {
    var p, found := Posed(k, s), FoundTuple(k, s, t);
    forall v | v in found.covered ensures t[v] in s.pending[v] {
      assert p.allowed[v] == Some(s.pending[v]);
    }
    if found.popped.None? {
      var v :| 0 <= v < |s.pending| && s.pending[v] != {};
      var u := First(s.pending, v);
      assert Constrained(s.pending, s.individual, u) && u in found.covered;
    }
  }

  /** And all conditions true of it that are still pending. */
  lemma {:induction false} FoundTrue(k: Task, s: Search, t: seq<Reg>, j: nat)
    requires ClaimsKept(k, s) && j <= |s.solutions|
    ensures ClaimsTrue(k, s.solutions + [FoundTuple(k, s, t)], j, s.lost)
  {
    var found, more := FoundTuple(k, s, t), s.solutions + [FoundTuple(k, s, t)];
    OpCombSplit(s);
    forall c | c in k.wanted && k.cs.holds(c, more[j].regs)
      ensures c in more[j].also || PoppedBy(more, j + 1, c) || c in s.lost
    {
      PoppedStays(s.solutions, found, |s.solutions|, c);
      if j < |s.solutions| {
        assert ClaimsTrue(k, s.solutions, j, s.lost);
        PoppedStays(s.solutions, found, j + 1, c);
      }
    }
  }

  lemma {:induction false} FoundClaimed(k: Task, s: Search, t: seq<Reg>)
    requires ClaimsKept(k, s) && |t| == |s.pending|
    ensures AllClaimed(k, AfterFound(k, s, t))
  {
    var found, more := FoundTuple(k, s, t), s.solutions + [FoundTuple(k, s, t)];
    if !s.individual {
      forall v, x | 0 <= v < |k.requested| && x in k.requested[v]
        ensures x in Minus(s.pending, t)[v] || ClaimedBy(more, v, x)
      {
        if x in s.pending[v] {
          assert Constrained(s.pending, false, v);
          assert more[|s.solutions|] == found && (t[v] == x ==> Claims(found, v, x));
        } else {
          var j :| 0 <= j < |s.solutions| && Claims(s.solutions[j], v, x);
          assert more[j] == s.solutions[j];
        }
      }
    }
  }

  lemma {:induction false} FoundKept(k: Task, s: Search, t: seq<Reg>)
    requires ClaimsKept(k, s) && !Over(s) && Solves(Posed(k, s), t, k.cs) && |t| == |s.pending|
    ensures ClaimsKept(k, AfterFound(k, s, t))
  {
    var next := AfterFound(k, s, t);
    FoundClaims(k, s, t);
    FoundClaimed(k, s, t);
    OpCombSplit(s);
    forall j | 0 <= j < |next.solutions| ensures ClaimsTrue(k, next.solutions, j, next.lost) {
      FoundTrue(k, s, t, j);
    }
    forall c | c in k.wanted
      ensures c in next.opComb || c in next.lost || PoppedBy(next.solutions, |next.solutions|, c)
    {
      PoppedStays(s.solutions, FoundTuple(k, s, t), |s.solutions|, c);
    }
  }

  lemma {:induction false} FailedClaims(k: Task, s: Search)
    requires Keeps(k, s) && ClaimsKept(k, s) && !Over(s)
    ensures ClaimsKept(k, AfterFailed(k, s))
  {
    var next := AfterFailed(k, s);
    OpCombSplit(s);
    forall v, x | 0 <= v < |next.pending| && x in next.pending[v] ensures Asked(k, v, x) {
      if x !in s.pending[v] {
        var c := Current(s).value;
        assert c in k.wanted && Recognised(k, c) && x in k.cs.hard(c);
      }
    }
    forall j | 0 <= j < |s.solutions| ensures ClaimsTrue(k, s.solutions, j, next.lost) {
      assert ClaimsTrue(k, s.solutions, j, s.lost);
    }
  }

  lemma {:induction false} RunClaims(k: Task, s: Search, solver: Problem -> Option<seq<Reg>>)
    requires Keeps(k, s) && ClaimsKept(k, s) && Oracle(solver, k.cs)
    ensures ClaimsKept(k, Run(k, s, solver))
    decreases FailuresLeft(s), TurnsLeft(s)
  {
    if !Over(s) {
      TurnKeeps(k, s, solver);
      var r := solver(Posed(k, s));
      if r.Some? {
        assert Solves(Posed(k, s), r.value, k.cs);
        FoundKept(k, s, r.value);
      } else {
        FailedClaims(k, s);
      }
      RunClaims(k, Turn(k, s, solver), solver);
    }
  }

  /**
    The coverage strings of the whole search: a tuple claims only registers that
    were asked for in their operand, all conditions true of it that are neither lost
    nor named by an earlier tuple, and something at least; and if no search failed,
    every register asked for is claimed by some tuple.
   */
  lemma {:induction false} StringsClaim(k: Task, solver: Problem -> Option<seq<Reg>>)
    requires |k.domains| == |k.requested| && Oracle(solver, k.cs)
    ensures var r := Outcome(k, solver);
            && (forall j | 0 <= j < |r.solutions| ::
                  ClaimsAsked(k, r.solutions[j]) && ClaimsTrue(k, r.solutions, j, r.lost))
            && (!r.individual ==>
                  forall v, x | 0 <= v < |k.requested| && x in k.requested[v] :: ClaimedBy(r.solutions, v, x))
  {
    BeginKeeps(k);
    RunClaims(k, Begin(k), solver);
    var r := Outcome(k, solver);
    if !r.individual {
      forall v, x | 0 <= v < |k.requested| && x in k.requested[v] ensures ClaimedBy(r.solutions, v, x) {
        assert r.pending[v] == {};
      }
    }
  }
}
