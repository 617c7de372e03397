/**
  What comes out of `opcomb` of riscv_ctg/generator.py: when the search is
  complete, when it gives up, and which conditions it loses.
 */
module OperandOutcomes {
  import opened Wrappers
  import opened RegisterAllocation
  import opened OperandSearch

  /** The search from its start. */
  ghost function Outcome(k: Task, solver: Problem -> Option<seq<Reg>>): (r: Search)
    requires |k.domains| == |k.requested| && Oracle(solver, k.cs)
    ensures Keeps(k, Begin(k)) && Keeps(k, r) && Over(r)
  {
    BeginKeeps(k);
    Run(k, Begin(k), solver)
  }

  /** Done: every requested register seen in its position, every condition met or lost. */
  ghost predicate Complete(requested: seq<set<Reg>>, wanted: seq<nat>, cs: Conditions, solutions: seq<Tuple>,
                           lost: set<nat>) {
    && (forall v, r | 0 <= v < |requested| && r in requested[v] :: Seen(solutions, v, r))
    && (forall c | c in wanted :: c in lost || Met(solutions, c, cs))
  }

  /** Unless it gives up the search is complete, but for at most two conditions. */
  lemma {:induction false} CompleteUnlessGivenUp(k: Task, solver: Problem -> Option<seq<Reg>>)
    requires |k.domains| == |k.requested| && Oracle(solver, k.cs)
    ensures var r := Outcome(k, solver);
            && AllHonest(r.solutions, k.domains, k.cs, r.nodiff)
            && (!r.gaveUp ==> Complete(k.requested, k.wanted, k.cs, r.solutions, r.lost) && |r.lost| <= 2)
  {
    var r := Outcome(k, solver);
    if !r.gaveUp {
      forall v, x | 0 <= v < |k.requested| && x in k.requested[v] ensures Seen(r.solutions, v, x) {
        assert r.pending[v] == {};
      }
    }
  }

  // ---------------------------------------------------------------------
  // Which conditions are lost, and when the search gives up
  // ---------------------------------------------------------------------

  /** The states in which a turn is taken. */
  ghost function States(k: Task, s: Search, solver: Problem -> Option<seq<Reg>>): seq<Search>
    requires Keeps(k, s) && Oracle(solver, k.cs)
    decreases FailuresLeft(s), TurnsLeft(s)
  {
    if Over(s) then []
    else
      TurnKeeps(k, s, solver);
      [s] + States(k, Turn(k, s, solver), solver)
  }

  ghost predicate Unsolvable(p: Problem, cs: Conditions) {
    forall t :: !Solves(p, t, cs)
  }

  /** In this turn c is popped, no tuple meets it along with the demands then pending, and it is not put back. */
  ghost predicate LosesNow(k: Task, s: Search, c: nat) {
    Popped(s) == Some(c) && Unsolvable(Posed(k, s), k.cs) && !Recognised(k, c) && c !in Rest(s)
  }

  /** Both allowances are used up, and still no tuple. */
  ghost predicate GivesUpNow(k: Task, s: Search) {
    s.individual && s.nodiff && Unsolvable(Posed(k, s), k.cs)
  }

  lemma {:induction false} TurnLoses(k: Task, s: Search, solver: Problem -> Option<seq<Reg>>, c: nat)
    requires Keeps(k, s) && !Over(s) && Oracle(solver, k.cs) && Sized(k, s, solver)
    ensures c in Turn(k, s, solver).lost <==> c in s.lost || LosesNow(k, s, c)
    ensures Turn(k, s, solver).gaveUp <==> GivesUpNow(k, s)
  {
    var p := Posed(k, s);
    if solver(p).Some? {
      assert Solves(p, solver(p).value, k.cs);
    } else {
      assert Unsolvable(p, k.cs);
    }
  }

  /** A condition is lost exactly if it loses some turn; the search gives up exactly if some turn does. */
  lemma {:induction false} LostFrom(k: Task, s: Search, solver: Problem -> Option<seq<Reg>>, c: nat)
    requires Keeps(k, s) && Oracle(solver, k.cs)
    ensures c in Run(k, s, solver).lost <==> c in s.lost || exists t :: t in States(k, s, solver) && LosesNow(k, t, c)
    ensures Run(k, s, solver).gaveUp <==> s.gaveUp || exists t :: t in States(k, s, solver) && GivesUpNow(k, t)
    decreases FailuresLeft(s), TurnsLeft(s)
  {
    if !Over(s) {
      TurnKeeps(k, s, solver);
      var next := Turn(k, s, solver);
      TurnLoses(k, s, solver, c);
      LostFrom(k, next, solver, c);
      assert States(k, s, solver) == [s] + States(k, next, solver);
      assert forall t :: t in States(k, s, solver) <==> t == s || t in States(k, next, solver);
    }
  }

  lemma {:induction false} LostIff(k: Task, solver: Problem -> Option<seq<Reg>>, c: nat)
    requires |k.domains| == |k.requested| && Oracle(solver, k.cs)
    ensures var r := Outcome(k, solver);
            && (c in r.lost <==> exists t :: t in States(k, Begin(k), solver) && LosesNow(k, t, c))
            && (r.gaveUp <==> exists t :: t in States(k, Begin(k), solver) && GivesUpNow(k, t))
  {
    BeginKeeps(k);
    LostFrom(k, Begin(k), solver, c);
  }

  /** Conditions that all spell out registers the pattern recognises are never lost. */
  lemma {:induction false} RecognisedKept(k: Task, solver: Problem -> Option<seq<Reg>>)
    requires |k.domains| == |k.requested| && Oracle(solver, k.cs)
    requires forall c | c in k.wanted :: Recognised(k, c)
    ensures Outcome(k, solver).lost == {}
    ensures !Outcome(k, solver).gaveUp ==> forall c | c in k.wanted :: Met(Outcome(k, solver).solutions, c, k.cs)
  {
    var r := Outcome(k, solver);
    forall c ensures c !in r.lost {
      LostIff(k, solver, c);
      if t :| t in States(k, Begin(k), solver) && LosesNow(k, t, c) {
        StatesKeep(k, Begin(k), solver, t);
        OpCombSplit(t);
        assert c in k.wanted;
      }
    }
  }

  lemma {:induction false} StatesKeep(k: Task, s: Search, solver: Problem -> Option<seq<Reg>>, t: Search)
    requires Keeps(k, s) && Oracle(solver, k.cs) && t in States(k, s, solver)
    ensures Keeps(k, t) && !Over(t)
    decreases FailuresLeft(s), TurnsLeft(s)
  {
    TurnKeeps(k, s, solver);
    if t != s { StatesKeep(k, Turn(k, s, solver), solver, t); }
  }

  // ---------------------------------------------------------------------
  // Conditions alone
  // ---------------------------------------------------------------------

  /** Some tuple from the domains meets c. */
  ghost predicate Meetable(k: Task, c: nat) {
    exists t :: InDomains(k, t) && k.cs.holds(c, t)
  }

  ghost predicate InDomains(k: Task, t: seq<Reg>) {
    |t| == |k.domains| && forall v | 0 <= v < |t| :: t[v] in k.domains[v]
  }

  /** How many of the conditions no tuple meets. */
  ghost function Hopeless(k: Task, opComb: seq<nat>): nat {
    if opComb == [] then 0
    else Hopeless(k, opComb[..|opComb| - 1]) + if Meetable(k, opComb[|opComb| - 1]) then 0 else 1
  }

  ghost predicate NoRepeats(s: seq<nat>) {
    forall i, j | 0 <= i < j < |s| :: s[i] != s[j]
  }

  /** No register is asked for, and no condition would be put back. */
  ghost predicate ConditionsOnly(k: Task) {
    && |k.domains| == |k.requested| && (forall v | 0 <= v < |k.requested| :: k.requested[v] == {})
    && (forall c | c in k.wanted :: !Recognised(k, c)) && NoRepeats(k.wanted)
  }

  ghost predicate StillOnly(k: Task, s: Search) {
    Keeps(k, s) && !Waiting(s.pending) && NoRepeats(s.opComb)
  }

  lemma {:induction false} AloneSolvable(k: Task, s: Search, c: nat)
    requires StillOnly(k, s) && Popped(s) == Some(c)
    ensures Unsolvable(Posed(k, s), k.cs) <==> !Meetable(k, c)
  {
    var p := Posed(k, s);
    forall v | 0 <= v < |p.allowed| ensures p.allowed[v].None? {
      assert !Constrained(s.pending, s.individual, v);
    }
    forall t ensures Solves(p, t, k.cs) <==> InDomains(k, t) && k.cs.holds(c, t) {
    }
  }

  lemma {:induction false} OnlyFound(k: Task, s: Search, t: seq<Reg>)
    requires !Waiting(s.pending) && NoRepeats(s.opComb) && |t| == |s.pending|
    ensures !Waiting(AfterFound(k, s, t).pending) && NoRepeats(Rest(s)) && AfterFound(k, s, t).opComb == Rest(s)
  {
    forall v | 0 <= v < |s.pending| ensures Minus(s.pending, t)[v] == {} {
      assert s.pending[v] == {};
    }
  }

  lemma {:induction false} OnlyFailed(k: Task, s: Search, c: nat)
    requires !Waiting(s.pending) && NoRepeats(s.opComb) && Popped(s) == Some(c) && !Recognised(k, c)
    requires !s.gaveUp && (s.nodiff ==> s.individual)
    ensures AfterFailed(k, s).pending == s.pending && AfterFailed(k, s).opComb == Rest(s) && NoRepeats(Rest(s))
    ensures AfterFailed(k, s).lost == s.lost + {c}
    ensures FailuresLeft(AfterFailed(k, s)) == FailuresLeft(s) - 1
  {
  }

  lemma {:induction false} OnlyNext(k: Task, s: Search, solver: Problem -> Option<seq<Reg>>)
    requires ConditionsOnly(k) && StillOnly(k, s) && !Over(s) && Oracle(solver, k.cs)
    ensures Sized(k, s, solver) && StillOnly(k, Turn(k, s, solver)) && Turn(k, s, solver).opComb == Rest(s)
    ensures var c := s.opComb[|s.opComb| - 1];
            && Turn(k, s, solver).lost == (if Meetable(k, c) then s.lost else s.lost + {c})
            && FailuresLeft(Turn(k, s, solver)) == FailuresLeft(s) - if Meetable(k, c) then 0 else 1
  {
    var c := s.opComb[|s.opComb| - 1];
    TurnKeeps(k, s, solver);
    AloneSolvable(k, s, c);
    OpCombSplit(s);
    var r := solver(Posed(k, s));
    if r.Some? {
      assert Solves(Posed(k, s), r.value, k.cs);
      OnlyFound(k, s, r.value);
    } else {
      assert Unsolvable(Posed(k, s), k.cs);
      OnlyFailed(k, s, c);
    }
  }

  lemma {:induction false} OnlyRun(k: Task, s: Search, solver: Problem -> Option<seq<Reg>>)
    requires ConditionsOnly(k) && StillOnly(k, s) && Oracle(solver, k.cs) && !s.gaveUp
    ensures Run(k, s, solver).gaveUp <==> Hopeless(k, s.opComb) >= FailuresLeft(s)
    ensures !Run(k, s, solver).gaveUp ==>
              forall c :: c in Run(k, s, solver).lost <==> c in s.lost || (c in s.opComb && !Meetable(k, c))
    decreases |s.opComb|
  {
    if s.opComb != [] {
      OnlyNext(k, s, solver);
      OpCombSplit(s);
      var next := Turn(k, s, solver);
      if !next.gaveUp {
        OnlyRun(k, next, solver);
      }
    }
  }

  /**
    With conditions alone the search gives up exactly if three of them can be met
    by no tuple; otherwise it loses exactly those that can be met by none.
   */
  lemma {:induction false} ConditionsOnlyIff(k: Task, solver: Problem -> Option<seq<Reg>>)
    requires ConditionsOnly(k) && Oracle(solver, k.cs)
    ensures Outcome(k, solver).gaveUp <==> Hopeless(k, k.wanted) >= 3
    ensures !Outcome(k, solver).gaveUp ==>
              forall c :: c in Outcome(k, solver).lost <==> c in k.wanted && !Meetable(k, c)
  {
    BeginKeeps(k);
    OnlyRun(k, Begin(k), solver);
  }

  /** The conditions the tuples were made for, in order. */
  function PoppedSeq(solutions: seq<Tuple>): seq<nat> {
    if solutions == [] then []
    else
      var n := |solutions| - 1;
      PoppedSeq(solutions[..n]) + if solutions[n].popped.Some? then [solutions[n].popped.value] else []
  }

  /** The conditions that can be met, from the last to the first. */
  ghost function MeetableBackwards(k: Task, opComb: seq<nat>): seq<nat> {
    if opComb == [] then []
    else
      var n := |opComb| - 1;
      (if Meetable(k, opComb[n]) then [opComb[n]] else []) + MeetableBackwards(k, opComb[..n])
  }

  lemma {:induction false} OnlyPops(k: Task, s: Search, solver: Problem -> Option<seq<Reg>>)
    requires ConditionsOnly(k) && StillOnly(k, s) && !Over(s) && Oracle(solver, k.cs)
    ensures var c := s.opComb[|s.opComb| - 1];
            PoppedSeq(Turn(k, s, solver).solutions) == PoppedSeq(s.solutions) + if Meetable(k, c) then [c] else []
  {
    var c := s.opComb[|s.opComb| - 1];
    AloneSolvable(k, s, c);
    TurnKeeps(k, s, solver);
    var r := solver(Posed(k, s));
    if r.Some? {
      assert Solves(Posed(k, s), r.value, k.cs);
      var found := FoundTuple(k, s, r.value);
      assert (s.solutions + [found])[..|s.solutions|] == s.solutions;
    } else {
      assert Unsolvable(Posed(k, s), k.cs);
    }
  }

  lemma {:induction false} RunNext(k: Task, s: Search, solver: Problem -> Option<seq<Reg>>)
    requires Keeps(k, s) && Oracle(solver, k.cs) && !Over(s)
    ensures Sized(k, s, solver) && Keeps(k, Turn(k, s, solver))
    ensures Run(k, s, solver) == Run(k, Turn(k, s, solver), solver)
    ensures !Run(k, s, solver).gaveUp ==> !Turn(k, s, solver).gaveUp
  {
    TurnKeeps(k, s, solver);
  }

  lemma {:induction false} BackwardsFrom(k: Task, opComb: seq<nat>)
    requires opComb != []
    ensures var n := |opComb| - 1;
            MeetableBackwards(k, opComb)
            == (if Meetable(k, opComb[n]) then [opComb[n]] else []) + MeetableBackwards(k, opComb[..n])
  {
  }

  /** Tuples for opComb were made from s to r. */
  ghost predicate MadeFor(k: Task, s: Search, r: Search, opComb: seq<nat>) {
    PoppedSeq(r.solutions) == PoppedSeq(s.solutions) + MeetableBackwards(k, opComb)
  }

  lemma {:induction false} MadeForNext(k: Task, s: Search, next: Search, r: Search)
    requires s.opComb != [] && next.opComb == Rest(s) && MadeFor(k, next, r, next.opComb)
    requires var c := s.opComb[|s.opComb| - 1];
             PoppedSeq(next.solutions) == PoppedSeq(s.solutions) + if Meetable(k, c) then [c] else []
    ensures MadeFor(k, s, r, s.opComb)
  {
    BackwardsFrom(k, s.opComb);
  }

  lemma {:induction false} OnlyOrder(k: Task, s: Search, solver: Problem -> Option<seq<Reg>>)
    requires ConditionsOnly(k) && StillOnly(k, s) && Oracle(solver, k.cs) && !Run(k, s, solver).gaveUp && !s.gaveUp
    ensures MadeFor(k, s, Run(k, s, solver), s.opComb)
    decreases |s.opComb|
  {
    if s.opComb != [] {
      OnlyNext(k, s, solver);
      OnlyPops(k, s, solver);
      RunNext(k, s, solver);
      var next := Turn(k, s, solver);
      OnlyOrder(k, next, solver);
      MadeForNext(k, s, next, Run(k, next, solver));
    }
  }

  /** With conditions alone, tuples are made for those that can be met, the last one first. */
  lemma {:induction false} LastConditionFirst(k: Task, solver: Problem -> Option<seq<Reg>>)
    requires ConditionsOnly(k) && Oracle(solver, k.cs) && !Outcome(k, solver).gaveUp
    ensures PoppedSeq(Outcome(k, solver).solutions) == MeetableBackwards(k, k.wanted)
  {
    BeginKeeps(k);
    OnlyOrder(k, Begin(k), solver);
  }

  // ---------------------------------------------------------------------
  // Registers alone
  // ---------------------------------------------------------------------

  /** Some requested register is in no domain of its operand. */
  ghost predicate OutOfReach(domains: seq<seq<Reg>>, requested: seq<set<Reg>>)
    requires |domains| == |requested|
  {
    exists v: nat, r :: v < |requested| && r in requested[v] && r !in domains[v]
  }

  lemma {:induction false} PendingShrinks(k: Task, s: Search, solver: Problem -> Option<seq<Reg>>, t: Search)
    requires Keeps(k, s) && Oracle(solver, k.cs) && k.wanted == [] && t in States(k, s, solver)
    requires s.opComb == [] && forall v | 0 <= v < |s.pending| :: s.pending[v] <= k.requested[v]
    ensures t.opComb == [] && |t.pending| == |k.requested|
    ensures forall v | 0 <= v < |t.pending| :: t.pending[v] <= k.requested[v]
    decreases FailuresLeft(s), TurnsLeft(s)
  {
    TurnKeeps(k, s, solver);
    if t != s { PendingShrinks(k, Turn(k, s, solver), solver, t); }
  }

  /** Without conditions the search gives up exactly if a requested register is in no domain. */
  lemma {:induction false} RegistersOnlyIff(k: Task, solver: Problem -> Option<seq<Reg>>)
    requires |k.domains| == |k.requested| && Oracle(solver, k.cs) && k.wanted == [] && NoneEmpty(k.domains)
    ensures Outcome(k, solver).gaveUp <==> OutOfReach(k.domains, k.requested)
  {
    LostIff(k, solver, 0);
    var r := Outcome(k, solver);
    if r.gaveUp {
      var t :| t in States(k, Begin(k), solver) && GivesUpNow(k, t);
      StatesKeep(k, Begin(k), solver, t);
      PendingShrinks(k, Begin(k), solver, t);
      var v, x := GiveUpMeans(k.domains, t.pending, Posed(k, t), solver, k.cs);
      assert x in k.requested[v];
    } else {
      forall v: nat, x | v < |k.requested| && x in k.requested[v] ensures x in k.domains[v] {
        CompleteUnlessGivenUp(k, solver);
        var i :| 0 <= i < |r.solutions| && v < |r.solutions[i].regs| && r.solutions[i].regs[v] == x;
        assert Honest(r.solutions[i], k.domains, k.cs);
      }
    }
  }

  // ---------------------------------------------------------------------
  // A condition lost although it can be met
  // ---------------------------------------------------------------------

  /** x1 asked for as rs1, x2 as rs2, and the condition `rs1 == rs2`, which spells out no register. */
  ghost predicate Contrary(k: Task) {
    && k.domains == [[X(1), X(2), X(3)], [X(1), X(2), X(3)], [X(1), X(2), X(3)]]
    && k.requested == [{X(1)}, {X(2)}, {}] && k.wanted == [0] && k.cs.hard(0) == {}
    && forall t: seq<Reg> | |t| == 3 :: k.cs.holds(0, t) <==> t[0] == t[1]
  }

  /** Once the condition is gone only different registers are asked for. */
  ghost predicate Past(k: Task, s: Search) {
    && Keeps(k, s) && s.opComb == [] && s.individual && !s.nodiff && !s.gaveUp && s.lost == {0}
    && |s.pending| == 3 && s.pending[0] <= {X(1)} && s.pending[1] <= {X(2)} && s.pending[2] == {}
    && forall i | 0 <= i < |s.solutions| :: |s.solutions[i].regs| == 3 && AllDifferent(s.solutions[i].regs)
  }

  lemma {:induction false} PastSolvable(k: Task, s: Search, t: seq<Reg>)
    requires Contrary(k) && Past(k, s) && t == [X(1), X(2), X(3)]
    ensures Solves(Posed(k, s), t, k.cs)
  {
    var p := Posed(k, s);
    forall v | 0 <= v < 3 && p.allowed[v].Some? ensures t[v] in p.allowed[v].value {
      assert Constrained(s.pending, s.individual, v);
      var x :| x in s.pending[v];
    }
  }

  lemma {:induction false} PastNext(k: Task, s: Search, t: seq<Reg>)
    requires Contrary(k) && Past(k, s) && !Over(s) && Solves(Posed(k, s), t, k.cs) && Keeps(k, AfterFound(k, s, t))
    ensures Past(k, AfterFound(k, s, t))
  {
    assert AllDifferent(t);
  }

  lemma {:induction false} PastRun(k: Task, s: Search, solver: Problem -> Option<seq<Reg>>)
    requires Contrary(k) && Past(k, s) && Oracle(solver, k.cs)
    ensures Past(k, Run(k, s, solver))
    decreases FailuresLeft(s), TurnsLeft(s)
  {
    if !Over(s) {
      TurnKeeps(k, s, solver);
      PastSolvable(k, s, [X(1), X(2), X(3)]);
      var r := solver(Posed(k, s));
      assert r.Some? && Solves(Posed(k, s), r.value, k.cs);
      PastNext(k, s, r.value);
      PastRun(k, Turn(k, s, solver), solver);
    }
  }

  /** The first search must fail, for rs1 and rs2 would have to be the same. */
  lemma {:induction false} ContraryFirst(k: Task, solver: Problem -> Option<seq<Reg>>)
    requires Contrary(k) && Oracle(solver, k.cs)
    ensures solver(Posed(k, Begin(k))).None? && AfterFailed(k, Begin(k)).pending == k.requested
    ensures AfterFailed(k, Begin(k)).opComb == [] && AfterFailed(k, Begin(k)).lost == {0}
  {
    var s := Begin(k);
    var p := Posed(k, s);
    assert Constrained(s.pending, false, 0) && Constrained(s.pending, false, 1);
    assert p.allowed[0] == Some({X(1)}) && p.allowed[1] == Some({X(2)});
    forall t ensures !Solves(p, t, k.cs) {
    }
  }

  /** Whatever the solver answers, the condition is lost and met by no tuple, though (x1, x1, x1) would meet it. */
  lemma {:induction false} LostThoughMeetable(k: Task, solver: Problem -> Option<seq<Reg>>)
    requires Contrary(k) && Oracle(solver, k.cs)
    ensures var r := Outcome(k, solver); !r.gaveUp && r.lost == {0} && !Met(r.solutions, 0, k.cs)
    ensures Meetable(k, 0)
  {
    BeginKeeps(k);
    var s := Begin(k);
    TurnKeeps(k, s, solver);
    ContraryFirst(k, solver);
    PastRun(k, Turn(k, s, solver), solver);
    var t := [X(1), X(1), X(1)];
    assert InDomains(k, t) && k.cs.holds(0, t);
  }
}
