/**
  The filter at the end of `gen_inst` in riscv_ctg/generator.py: walking over the
  candidates, it keeps one if it hits a coverpoint none before it has hit.  Hits
  are ordered sets, and the filter compares them as such; so it also keeps one that
  hits nothing new but meets its coverpoints in another order than they were first hit.
 */
module CoverageFilter {
  import opened Wrappers
  import opened OrderedSets
  import opened RegisterAllocation
  import opened InstructionSelection

  /** Kinds of coverpoints: val_comb, op_comb, and the registers of the operand at a position. */
  datatype Entry = ValComb | OpComb | Operand(p: nat)

  datatype Point = ValPoint(i: nat) | OpPoint(i: nat) | RegPoint(r: Reg)

  /** A covergroup, its conditions in their order; named says whether the instruction is among its mnemonics. */
  datatype Group = Group(named: bool, vals: seq<nat>, valHolds: (nat, seq<int>) -> bool,
                         ops: seq<nat>, opHolds: (nat, seq<Reg>) -> bool, regs: map<nat, set<Reg>>)

  /** The keys of a dictionary are different. */
  ghost predicate Once(g: Group) {
    Distinct(g.vals) && Distinct(g.ops)
  }

  /** Positions of the operands that decide whether values count. */
  datatype Format = Format(rs1: Option<nat>, rs2: Option<nat>, rd: Option<nat>)

  /** The conditions of an entry, as the covergroup lists them. */
  function Listing(g: Group, e: Entry): seq<Point> {
    match e
    case ValComb => seq(|g.vals|, k requires 0 <= k < |g.vals| => ValPoint(g.vals[k]))
    case OpComb => seq(|g.ops|, k requires 0 <= k < |g.ops| => OpPoint(g.ops[k]))
    case Operand(_) => []
  }

  lemma {:induction false} ListingIs(g: Group, e: Entry)
    ensures e == ValComb ==> forall i :: i in g.vals <==> ValPoint(i) in Listing(g, e)
    ensures e == OpComb ==> forall i :: i in g.ops <==> OpPoint(i) in Listing(g, e)
    ensures forall x | x in Listing(g, e) :: x in AllPoints(g, e)
    ensures Once(g) ==> Distinct(Listing(g, e))
  {
    var r := Listing(g, e);
    if e == ValComb {
      forall i | i in g.vals ensures ValPoint(i) in r {
        var k :| 0 <= k < |g.vals| && g.vals[k] == i;
        assert r[k] == ValPoint(i);
      }
    } else if e == OpComb {
      forall i | i in g.ops ensures OpPoint(i) in r {
        var k :| 0 <= k < |g.ops| && g.ops[k] == i;
        assert r[k] == OpPoint(i);
      }
    }
  }

  function Holding(g: Group, c: Candidate): Point -> bool {
    (x: Point) => match x
      case ValPoint(i) => g.valHolds(i, c.values)
      case OpPoint(i) => g.opHolds(i, c.regs)
      case RegPoint(_) => false
  }

  /** eval_inst_coverage. */
  function Covers(g: Group, c: Candidate, e: Entry): seq<Point> {
    match e
    case Operand(p) => if p in g.regs && p < |c.regs| && c.regs[p] in g.regs[p] then [RegPoint(c.regs[p])] else []
    case _ => Select(Listing(g, e), Holding(g, c))
  }

  function At(c: Candidate, p: Option<nat>): Option<Reg> {
    if p.Some? && p.value < |c.regs| then Some(c.regs[p.value]) else None
  }

  predicate Zero(r: Option<Reg>) {
    r == Some(X(0)) || r == Some(F(0))
  }

  /** Values do not count when an operand is x0 or f0 or both sources are the same. */
  predicate SkipsValues(f: Format, c: Candidate) {
    || (At(c, f.rs1).Some? && At(c, f.rs1) == At(c, f.rs2))
    || Zero(At(c, f.rs1)) || Zero(At(c, f.rs2)) || Zero(At(c, f.rd))
  }

  function Counted(g: Group, f: Format, c: Candidate, e: Entry): seq<Point> {
    if !g.named || (e == ValComb && SkipsValues(f, c)) then [] else Covers(g, c, e)
  }

  /** What a list of candidates hits, in the order of the first hits. */
  function Hits(g: Group, f: Format, cands: seq<Candidate>, e: Entry): seq<Point> {
    if cands == [] then [] else Join(Hits(g, f, cands[..|cands| - 1], e), Counted(g, f, cands[|cands| - 1], e))
  }

  function AllPoints(g: Group, e: Entry): set<Point> {
    match e
    case ValComb => set i | i in g.vals :: ValPoint(i)
    case OpComb => set i | i in g.ops :: OpPoint(i)
    case Operand(p) => if p in g.regs then set r | r in g.regs[p] :: RegPoint(r) else {}
  }

  lemma {:induction false} HitsSnoc(g: Group, f: Format, cands: seq<Candidate>, c: Candidate, e: Entry)
    ensures Hits(g, f, cands + [c], e) == Join(Hits(g, f, cands, e), Counted(g, f, c, e))
  {
    assert (cands + [c])[..|cands|] == cands;
  }

  lemma {:induction false} CountedIs(g: Group, f: Format, c: Candidate, e: Entry)
    ensures forall x | x in Counted(g, f, c, e) :: x in AllPoints(g, e)
    ensures Once(g) ==> Distinct(Counted(g, f, c, e))
    ensures forall x, y :: Before(Counted(g, f, c, e), x, y) <==>
                             Before(Listing(g, e), x, y) && x in Counted(g, f, c, e) && y in Counted(g, f, c, e)
  {
    ListingIs(g, e);
    forall x | x in Counted(g, f, c, e) ensures x in AllPoints(g, e) {
      SelectHas(Listing(g, e), Holding(g, c), x);
    }
    if Counted(g, f, c, e) != [] && !e.Operand? {
      forall x, y
        ensures Before(Counted(g, f, c, e), x, y) <==>
                  Before(Listing(g, e), x, y) && x in Counted(g, f, c, e) && y in Counted(g, f, c, e)
      {
        SelectOrder(Listing(g, e), Holding(g, c), x, y);
        SelectHas(Listing(g, e), Holding(g, c), x);
        SelectHas(Listing(g, e), Holding(g, c), y);
        if Before(Listing(g, e), x, y) { BeforeIn(Listing(g, e), x, y); }
      }
      if Once(g) { SelectDistinct(Listing(g, e), Holding(g, c)); }
    }
  }

  ghost predicate SomeCounts(g: Group, f: Format, cands: seq<Candidate>, e: Entry, x: Point) {
    exists j :: 0 <= j < |cands| && x in Counted(g, f, cands[j], e)
  }

  lemma {:induction false} SomeCountsSnoc(g: Group, f: Format, cands: seq<Candidate>, c: Candidate, e: Entry, x: Point)
    ensures SomeCounts(g, f, cands + [c], e, x) <==> SomeCounts(g, f, cands, e, x) || x in Counted(g, f, c, e)
  {
    var more := cands + [c];
    assert more[|cands|] == c;
    if j :| 0 <= j < |cands| && x in Counted(g, f, cands[j], e) {
      assert more[j] == cands[j];
    }
  }

  lemma {:induction false} HitsFrom(g: Group, f: Format, cands: seq<Candidate>, e: Entry, x: Point)
    ensures x in Hits(g, f, cands, e) <==> SomeCounts(g, f, cands, e, x)
  {
    if cands != [] {
      var n := |cands| - 1;
      assert cands == cands[..n] + [cands[n]];
      HitsFrom(g, f, cands[..n], e, x);
      JoinHas(Hits(g, f, cands[..n], e), Counted(g, f, cands[n], e));
      SomeCountsSnoc(g, f, cands[..n], cands[n], e, x);
    }
  }

  lemma {:induction false} HitsDistinct(g: Group, f: Format, cands: seq<Candidate>, e: Entry)
    requires Once(g)
    ensures Distinct(Hits(g, f, cands, e))
  {
    if cands != [] {
      var n := |cands| - 1;
      HitsDistinct(g, f, cands[..n], e);
      CountedIs(g, f, cands[n], e);
      JoinOrder(Hits(g, f, cands[..n], e), Counted(g, f, cands[n], e));
    }
  }

  lemma {:induction false} HitsAre(g: Group, f: Format, cands: seq<Candidate>, e: Entry)
    ensures forall x :: x in Hits(g, f, cands, e) <==> exists j :: 0 <= j < |cands| && x in Counted(g, f, cands[j], e)
    ensures forall x | x in Hits(g, f, cands, e) :: x in AllPoints(g, e)
    ensures Once(g) ==> Distinct(Hits(g, f, cands, e))
  {
    forall x ensures x in Hits(g, f, cands, e) <==> exists j :: 0 <= j < |cands| && x in Counted(g, f, cands[j], e) {
      HitsFrom(g, f, cands, e, x);
    }
    forall x | x in Hits(g, f, cands, e) ensures x in AllPoints(g, e) {
      var j :| 0 <= j < |cands| && x in Counted(g, f, cands[j], e);
      CountedIs(g, f, cands[j], e);
    }
    if Once(g) { HitsDistinct(g, f, cands, e); }
  }

  // ---------------------------------------------------------------------
  // The filter
  // ---------------------------------------------------------------------

  /** The filter's test: what a candidate counts is not what it has in common with the hits so far. */
  predicate Unique(g: Group, f: Format, cands: seq<Candidate>, c: Candidate, entries: seq<Entry>) {
    exists e :: e in entries && Meet(Hits(g, f, cands, e), Counted(g, f, c, e)) != Counted(g, f, c, e)
  }

  function Test(g: Group, f: Format, entries: seq<Entry>): (seq<Candidate>, Candidate) -> bool {
    (seen: seq<Candidate>, c: Candidate) => Unique(g, f, seen, c, entries)
  }

  /** The candidates that pass where they stand. */
  function KeepBy(cands: seq<Candidate>, passes: (seq<Candidate>, Candidate) -> bool): seq<Candidate> {
    if cands == [] then []
    else
      var n := |cands| - 1;
      if passes(cands[..n], cands[n]) then KeepBy(cands[..n], passes) + [cands[n]] else KeepBy(cands[..n], passes)
  }

  /** The candidates that are unique where they stand. */
  function Keep(g: Group, f: Format, cands: seq<Candidate>, entries: seq<Entry>): seq<Candidate> {
    KeepBy(cands, Test(g, f, entries))
  }

  lemma {:induction false} KeepByAll(cands: seq<Candidate>, passes: (seq<Candidate>, Candidate) -> bool)
    requires forall k | 0 <= k < |cands| :: passes(cands[..k], cands[k])
    ensures KeepBy(cands, passes) == cands
  {
    if cands != [] {
      var n := |cands| - 1;
      forall k | 0 <= k < n ensures passes(cands[..n][..k], cands[..n][k]) {
        assert cands[..n][..k] == cands[..k];
      }
      KeepByAll(cands[..n], passes);
    }
  }

  ghost predicate HitsNow(g: Group, f: Format, hits: map<Entry, seq<Point>>, cands: seq<Candidate>,
                          entries: seq<Entry>) {
    forall e | e in entries :: e in hits && hits[e] == Hits(g, f, cands, e)
  }

  lemma {:induction false} NothingCounted(h: seq<Point>)
    ensures Meet(h, []) == [] && Join(h, []) == h
  {
    HasFirst(Meet(h, []));
    MeetHas(h, []);
    JoinSame(h, []);
  }

  /** What one entry's hits become, and whether the test finds something there. */
  datatype Step = Step(hits: seq<Point>, unique: bool)

  function StepOf(h: seq<Point>, counted: seq<Point>): Step {
    Step(Join(h, counted), Meet(h, counted) != counted)
  }

  /** What counts of the cover hits, val_comb being skipped or not. */
  function Unskipped(covers: Entry -> seq<Point>, skip: bool, e: Entry): seq<Point> {
    if e == ValComb && skip then [] else covers(e)
  }

  ghost predicate StepIs(covers: Entry -> seq<Point>, skip: bool, e: Entry, hits: map<Entry, seq<Point>>, s: Step) {
    e in hits && s == StepOf(hits[e], Unskipped(covers, skip, e))
  }

  /** One entry: skipped, or tested and joined. */
  method CountEntry(covers: Entry -> seq<Point>, skip: bool, e: Entry, hits: map<Entry, seq<Point>>) returns (s: Step)
    requires e in hits
    ensures StepIs(covers, skip, e, hits, s)
  {
    var h := hits[e];
    if e == ValComb && skip {
      NothingCounted(h);
      s := Step(h, false);
    } else {
      var over := Meet(h, covers(e));
      s := Step(Join(h, covers(e)), over != covers(e));
    }
  }

  lemma {:induction false} SameStep(covers: Entry -> seq<Point>, skip: bool, e: Entry, hits: map<Entry, seq<Point>>,
                                    s: Step, hits0: map<Entry, seq<Point>>, s0: Step)
    requires StepIs(covers, skip, e, hits, s) && StepIs(covers, skip, e, hits0, s0) && hits[e] == hits0[e]
    ensures s == s0
  {
  }

  /** The first j entries have taken their steps. */
  ghost predicate Stepped(entries: seq<Entry>, hits0: map<Entry, seq<Point>>, hits: map<Entry, seq<Point>>,
                          unique: bool, steps: seq<Step>, j: nat)
    requires j <= |entries| == |steps| && forall e | e in entries :: e in hits0
  {
    && hits.Keys == hits0.Keys
    && (forall k | 0 <= k < |entries| :: hits[entries[k]] == if k < j then steps[k].hits else hits0[entries[k]])
    && (unique <==> exists k :: 0 <= k < j && steps[k].unique)
  }

  lemma {:induction false} SteppedNext(entries: seq<Entry>, hits0: map<Entry, seq<Point>>, hits: map<Entry, seq<Point>>,
                                       unique: bool, steps: seq<Step>, j: nat)
    requires j < |entries| == |steps| && (forall e | e in entries :: e in hits0) && Distinct(entries)
    requires Stepped(entries, hits0, hits, unique, steps, j)
    ensures Stepped(entries, hits0, hits[entries[j] := steps[j].hits], unique || steps[j].unique, steps, j + 1)
    ensures hits[entries[j]] == hits0[entries[j]]
  {
    forall k | 0 <= k < |entries| && k != j ensures entries[k] != entries[j] {
      if k < j { assert entries[k] != entries[j]; }
    }
  }

  /** The loop over the entries. */
  method CountEntries(covers: Entry -> seq<Point>, skip: bool, entries: seq<Entry>, hits0: map<Entry, seq<Point>>,
                      ghost steps: seq<Step>)
    returns (hits: map<Entry, seq<Point>>, unique: bool)
    requires Distinct(entries) && (forall e | e in entries :: e in hits0) && |steps| == |entries|
    requires forall k | 0 <= k < |entries| :: StepIs(covers, skip, entries[k], hits0, steps[k])
    ensures Stepped(entries, hits0, hits, unique, steps, |entries|)
  {
    hits, unique := hits0, false;
    for j := 0 to |entries|
      invariant Stepped(entries, hits0, hits, unique, steps, j)
    {
      var e := entries[j];
      SteppedNext(entries, hits0, hits, unique, steps, j);
      var s := CountEntry(covers, skip, e, hits);
      SameStep(covers, skip, e, hits, s, hits0, steps[j]);
      unique := unique || s.unique;
      hits := hits[e := s.hits];
    }
  }

  /** One candidate: what it hits is added behind, and whether the test finds it unique. */
  method Count(g: Group, f: Format, c: Candidate, entries: seq<Entry>, hits0: map<Entry, seq<Point>>)
    returns (hits: map<Entry, seq<Point>>, unique: bool)
    requires Distinct(entries) && forall e | e in entries :: e in hits0
    ensures forall e | e in entries :: e in hits && hits[e] == StepOf(hits0[e], Counted(g, f, c, e)).hits
    ensures unique <==> exists e :: e in entries && StepOf(hits0[e], Counted(g, f, c, e)).unique
  {
    if g.named {
      var covers, skip := (e: Entry) => Covers(g, c, e), SkipsValues(f, c);
      ghost var steps := seq(|entries|, k requires 0 <= k < |entries| =>
        StepOf(hits0[entries[k]], Unskipped(covers, skip, entries[k])));
      hits, unique := CountEntries(covers, skip, entries, hits0, steps);
      assert forall e :: Unskipped(covers, skip, e) == Counted(g, f, c, e);
      assert forall k | 0 <= k < |entries| :: steps[k].hits == hits[entries[k]];
    } else {
      hits, unique := hits0, false;
      forall e | e in entries ensures StepOf(hits0[e], []) == Step(hits0[e], false) { NothingCounted(hits0[e]); }
    }
  }

  /** The filter keeps just the candidates its test finds unique. */
  method Filter(g: Group, f: Format, cands: seq<Candidate>, entries: seq<Entry>) returns (kept: seq<Candidate>)
    requires Distinct(entries)
    ensures kept == Keep(g, f, cands, entries)
  {
    var hits: map<Entry, seq<Point>> := map e | e in entries :: [];
    kept := [];
    for k := 0 to |cands|
      invariant HitsNow(g, f, hits, cands[..k], entries) && kept == Keep(g, f, cands[..k], entries)
    {
      assert cands[..k + 1][..k] == cands[..k];
      var unique;
      hits, unique := Count(g, f, cands[k], entries, hits);
      assert unique <==> Unique(g, f, cands[..k], cands[k], entries);
      if unique {
        kept := kept + [cands[k]];
      }
    }
    assert cands[..|cands|] == cands;
  }

  /** Nothing hit is lost, nor the order of the first hits. */
  lemma {:induction false} KeepHits(g: Group, f: Format, cands: seq<Candidate>, entries: seq<Entry>, e: Entry)
    requires e in entries
    ensures Hits(g, f, Keep(g, f, cands, entries), e) == Hits(g, f, cands, e)
  {
    if cands != [] {
      var n := |cands| - 1;
      KeepHits(g, f, cands[..n], entries, e);
      if Unique(g, f, cands[..n], cands[n], entries) {
        HitsSnoc(g, f, Keep(g, f, cands[..n], entries), cands[n], e);
      } else {
        MeetHas(Hits(g, f, cands[..n], e), Counted(g, f, cands[n], e));
        JoinSame(Hits(g, f, cands[..n], e), Counted(g, f, cands[n], e));
      }
    }
  }

  lemma {:induction false} KeepByFrom(cands: seq<Candidate>, passes: (seq<Candidate>, Candidate) -> bool)
    ensures forall c | c in KeepBy(cands, passes) :: c in cands
  {
    if cands != [] {
      KeepByFrom(cands[..|cands| - 1], passes);
    }
  }

  lemma {:induction false} KeepFrom(g: Group, f: Format, cands: seq<Candidate>, entries: seq<Entry>)
    ensures forall c | c in Keep(g, f, cands, entries) :: c in cands
  {
    KeepByFrom(cands, Test(g, f, entries));
  }

  // ---------------------------------------------------------------------
  // What makes a candidate unique
  // ---------------------------------------------------------------------

  /** The number of the first candidate that hits x. */
  function FirstHit(g: Group, f: Format, cands: seq<Candidate>, e: Entry, x: Point): nat {
    if cands == [] then 0
    else
      var n := |cands| - 1;
      if x in Hits(g, f, cands[..n], e) then FirstHit(g, f, cands[..n], e, x) else n
  }

  lemma {:induction false} FirstHitIs(g: Group, f: Format, cands: seq<Candidate>, e: Entry, x: Point)
    requires x in Hits(g, f, cands, e)
    ensures var k := FirstHit(g, f, cands, e, x);
            && k < |cands| && x in Counted(g, f, cands[k], e)
            && forall j | 0 <= j < k :: x !in Counted(g, f, cands[j], e)
  {
    var n := |cands| - 1;
    if x in Hits(g, f, cands[..n], e) {
      FirstHitIs(g, f, cands[..n], e, x);
      var k := FirstHit(g, f, cands, e, x);
      forall j | 0 <= j < k ensures x !in Counted(g, f, cands[j], e) {
        assert cands[..n][j] == cands[j];
      }
    } else {
      JoinHas(Hits(g, f, cands[..n], e), Counted(g, f, cands[n], e));
      HitsAre(g, f, cands[..n], e);
      forall j | 0 <= j < n ensures x !in Counted(g, f, cands[j], e) {
        assert cands[..n][j] == cands[j];
      }
    }
  }

  /** Hits are in the order of their first candidates, those of one candidate as listed. */
  lemma {:induction false} HitOrder(g: Group, f: Format, cands: seq<Candidate>, e: Entry, x: Point, y: Point)
    requires Once(g) && x in Hits(g, f, cands, e) && y in Hits(g, f, cands, e)
    ensures var i, j := FirstHit(g, f, cands, e, x), FirstHit(g, f, cands, e, y);
            Before(Hits(g, f, cands, e), x, y) <==> i < j || (i == j && Before(Listing(g, e), x, y))
  {
    var n := |cands| - 1;
    var before, h, counted := cands[..n], Hits(g, f, cands[..n], e), Counted(g, f, cands[n], e);
    HitsAre(g, f, before, e);
    CountedIs(g, f, cands[n], e);
    JoinOrder(h, counted);
    JoinHas(h, counted);
    if Before(h, x, y) { BeforeIn(h, x, y); }
    if x in h { FirstHitIs(g, f, before, e, x); }
    if y in h { FirstHitIs(g, f, before, e, y); }
    if x in h && y in h {
      HitOrder(g, f, before, e, x, y);
    }
  }

  /** A candidate that hits something new. */
  ghost predicate Enlarges(g: Group, f: Format, cands: seq<Candidate>, c: Candidate, entries: seq<Entry>) {
    exists e, x :: e in entries && x in Counted(g, f, c, e) && x !in Hits(g, f, cands, e)
  }

  /** Two coverpoints of a candidate were first hit the other way round than they are listed. */
  ghost predicate Reorders(g: Group, f: Format, cands: seq<Candidate>, c: Candidate, entries: seq<Entry>) {
    exists e, x, y :: e in entries && Swapped(g, f, cands, c, e, x, y)
  }

  ghost predicate Swapped(g: Group, f: Format, cands: seq<Candidate>, c: Candidate, e: Entry, x: Point, y: Point) {
    && x in Counted(g, f, c, e) && y in Counted(g, f, c, e) && Before(Listing(g, e), x, y)
    && x in Hits(g, f, cands, e) && y in Hits(g, f, cands, e)
    && FirstHit(g, f, cands, e, y) < FirstHit(g, f, cands, e, x)
  }

  /** In one entry. */
  lemma {:induction false} MeetsIff(g: Group, f: Format, cands: seq<Candidate>, c: Candidate, e: Entry)
    requires Once(g)
    ensures Meet(Hits(g, f, cands, e), Counted(g, f, c, e)) != Counted(g, f, c, e)
            <==> (exists x :: x in Counted(g, f, c, e) && x !in Hits(g, f, cands, e))
                 || exists x, y :: Swapped(g, f, cands, c, e, x, y)
  {
    var h, counted := Hits(g, f, cands, e), Counted(g, f, c, e);
    HitsAre(g, f, cands, e);
    CountedIs(g, f, c, e);
    MeetIff(h, counted);
    forall x, y | x in counted && y in counted && x in h && y in h
      ensures Swapped(g, f, cands, c, e, x, y) <==> Before(counted, x, y) && !Before(h, x, y)
    {
      HitOrder(g, f, cands, e, x, y);
    }
    if exists x, y :: Before(counted, x, y) && !Before(h, x, y) {
      var x, y :| Before(counted, x, y) && !Before(h, x, y);
      BeforeIn(counted, x, y);
      assert x in h && y in h ==> Swapped(g, f, cands, c, e, x, y);
    }
  }

  /**
    A candidate is kept just when it hits something new, or two of its coverpoints
    were first hit the other way round than the covergroup lists them.
   */
  lemma {:induction false} UniqueIff(g: Group, f: Format, cands: seq<Candidate>, c: Candidate, entries: seq<Entry>)
    requires Once(g)
    ensures Unique(g, f, cands, c, entries)
            <==> Enlarges(g, f, cands, c, entries) || Reorders(g, f, cands, c, entries)
  {
    forall e | e in entries
      ensures Meet(Hits(g, f, cands, e), Counted(g, f, c, e)) != Counted(g, f, c, e)
              <==> (exists x :: x in Counted(g, f, c, e) && x !in Hits(g, f, cands, e))
                   || exists x, y :: Swapped(g, f, cands, c, e, x, y)
    {
      MeetsIff(g, f, cands, c, e);
    }
  }

  // ---------------------------------------------------------------------
  // How much is kept
  // ---------------------------------------------------------------------

  /** The size of what is hit, over all kinds of coverpoints. */
  function Size(g: Group, f: Format, cands: seq<Candidate>, entries: seq<Entry>): nat {
    if entries == [] then 0
    else Size(g, f, cands, entries[..|entries| - 1]) + |Hits(g, f, cands, entries[|entries| - 1])|
  }

  function Points(g: Group, entries: seq<Entry>): nat {
    if entries == [] then 0 else Points(g, entries[..|entries| - 1]) + |AllPoints(g, entries[|entries| - 1])|
  }

  lemma {:induction false} SizeBound(g: Group, f: Format, cands: seq<Candidate>, entries: seq<Entry>)
    requires Once(g)
    ensures Size(g, f, cands, entries) <= Points(g, entries)
  {
    if entries != [] {
      var e := entries[|entries| - 1];
      SizeBound(g, f, cands, entries[..|entries| - 1]);
      HitsAre(g, f, cands, e);
      DistinctSize(Hits(g, f, cands, e), AllPoints(g, e));
    }
  }

  lemma {:induction false} HitsGrow(g: Group, f: Format, cands: seq<Candidate>, c: Candidate, e: Entry)
    ensures |Hits(g, f, cands, e)| <= |Hits(g, f, cands + [c], e)|
    ensures (exists x :: x in Counted(g, f, c, e) && x !in Hits(g, f, cands, e)) ==>
              |Hits(g, f, cands, e)| < |Hits(g, f, cands + [c], e)|
  {
    HitsSnoc(g, f, cands, c, e);
    JoinHas(Hits(g, f, cands, e), Counted(g, f, c, e));
    if x :| x in Counted(g, f, c, e) && x !in Hits(g, f, cands, e) {
      JoinLonger(Hits(g, f, cands, e), Counted(g, f, c, e), x);
    }
  }

  lemma {:induction false} SizeSnoc(g: Group, f: Format, cands: seq<Candidate>, entries: seq<Entry>, e: Entry)
    ensures Size(g, f, cands, entries + [e]) == Size(g, f, cands, entries) + |Hits(g, f, cands, e)|
  {
    assert (entries + [e])[..|entries|] == entries;
  }

  lemma {:induction false} SizeGrows(g: Group, f: Format, cands: seq<Candidate>, c: Candidate, entries: seq<Entry>)
    ensures Size(g, f, cands, entries) <= Size(g, f, cands + [c], entries)
    ensures Enlarges(g, f, cands, c, entries) ==> Size(g, f, cands, entries) < Size(g, f, cands + [c], entries)
  {
    if entries != [] {
      var before, e := entries[..|entries| - 1], entries[|entries| - 1];
      assert entries == before + [e];
      SizeGrows(g, f, cands, c, before);
      HitsGrow(g, f, cands, c, e);
      SizeSnoc(g, f, cands, before, e);
      SizeSnoc(g, f, cands + [c], before, e);
      assert Enlarges(g, f, cands, c, entries) ==>
          (exists x :: x in Counted(g, f, c, e) && x !in Hits(g, f, cands, e)) || Enlarges(g, f, cands, c, before);
    }
  }

  /** A candidate kept though it hits nothing new. */
  ghost predicate Needless(g: Group, f: Format, cands: seq<Candidate>, c: Candidate, entries: seq<Entry>) {
    Reorders(g, f, cands, c, entries) && !Enlarges(g, f, cands, c, entries)
  }

  /** The number of candidates kept though they hit nothing new. */
  ghost function Surplus(g: Group, f: Format, cands: seq<Candidate>, entries: seq<Entry>): nat {
    if cands == [] then 0
    else
      var n := |cands| - 1;
      Surplus(g, f, cands[..n], entries)
      + if Needless(g, f, cands[..n], cands[n], entries) then 1 else 0
  }

  lemma {:induction false} KeepSize(g: Group, f: Format, cands: seq<Candidate>, entries: seq<Entry>)
    requires Once(g)
    ensures |Keep(g, f, cands, entries)| <= Size(g, f, cands, entries) + Surplus(g, f, cands, entries)
  {
    if cands != [] {
      var n := |cands| - 1;
      assert cands == cands[..n] + [cands[n]];
      KeepSize(g, f, cands[..n], entries);
      SizeGrows(g, f, cands[..n], cands[n], entries);
      UniqueIff(g, f, cands[..n], cands[n], entries);
    }
  }

  /** At most as many are kept as there are coverpoints, and the surplus. */
  lemma {:induction false} KeepBound(g: Group, f: Format, cands: seq<Candidate>, entries: seq<Entry>)
    requires Once(g)
    ensures |Keep(g, f, cands, entries)| <= Points(g, entries) + Surplus(g, f, cands, entries)
  {
    KeepSize(g, f, cands, entries);
    SizeBound(g, f, cands, entries);
  }

  ghost predicate EachNeeded(g: Group, f: Format, kept: seq<Candidate>, entries: seq<Entry>) {
    forall k | 0 <= k < |kept| :: NeededAt(g, f, kept, k, entries)
  }

  ghost predicate NeededAt(g: Group, f: Format, kept: seq<Candidate>, k: nat, entries: seq<Entry>)
    requires k < |kept|
  {
    Enlarges(g, f, kept[..k], kept[k], entries)
  }

  lemma {:induction false} NeededMore(g: Group, f: Format, kept: seq<Candidate>, c: Candidate, entries: seq<Entry>)
    ensures EachNeeded(g, f, kept + [c], entries)
            <==> EachNeeded(g, f, kept, entries) && Enlarges(g, f, kept, c, entries)
  {
    var more := kept + [c];
    assert forall k | 0 <= k < |kept| :: more[..k] == kept[..k];
    assert more[..|kept|] == kept && more[|kept|] == c;
    if EachNeeded(g, f, more, entries) {
      forall k | 0 <= k < |kept| ensures NeededAt(g, f, kept, k, entries) {
        assert NeededAt(g, f, more, k, entries);
      }
      assert NeededAt(g, f, more, |kept|, entries);
    }
    if EachNeeded(g, f, kept, entries) {
      forall k | 0 <= k < |kept| ensures NeededAt(g, f, more, k, entries) {
        assert NeededAt(g, f, kept, k, entries);
      }
    }
  }

  /** Each kept candidate hit something new just when there is no surplus. */
  lemma {:induction false} NeededIff(g: Group, f: Format, cands: seq<Candidate>, entries: seq<Entry>)
    requires Once(g)
    ensures EachNeeded(g, f, Keep(g, f, cands, entries), entries) <==> Surplus(g, f, cands, entries) == 0
  {
    if cands != [] {
      var n := |cands| - 1;
      var kept := Keep(g, f, cands[..n], entries);
      NeededIff(g, f, cands[..n], entries);
      UniqueIff(g, f, cands[..n], cands[n], entries);
      NeededMore(g, f, kept, cands[n], entries);
      forall e | e in entries ensures Hits(g, f, kept, e) == Hits(g, f, cands[..n], e) {
        KeepHits(g, f, cands[..n], entries, e);
      }
      assert Enlarges(g, f, kept, cands[n], entries) <==> Enlarges(g, f, cands[..n], cands[n], entries);
    }
  }

  /** The coverpoints are first hit in the order they are listed in. */
  ghost predicate AsListed(g: Group, f: Format, cands: seq<Candidate>, entries: seq<Entry>) {
    forall e, x, y | e in entries && Before(Hits(g, f, cands, e), x, y) :: !Before(Listing(g, e), y, x)
  }

  /** Then nothing is kept without need. */
  lemma {:induction false} NoSurplus(g: Group, f: Format, cands: seq<Candidate>, entries: seq<Entry>)
    requires Once(g) && AsListed(g, f, cands, entries)
    ensures Surplus(g, f, cands, entries) == 0
  {
    if cands != [] {
      var n := |cands| - 1;
      forall e, x, y | e in entries && Before(Hits(g, f, cands[..n], e), x, y) ensures !Before(Listing(g, e), y, x) {
        HitsAre(g, f, cands[..n], e);
        CountedIs(g, f, cands[n], e);
        JoinOrder(Hits(g, f, cands[..n], e), Counted(g, f, cands[n], e));
        assert Before(Hits(g, f, cands, e), x, y);
      }
      NoSurplus(g, f, cands[..n], entries);
      if Reorders(g, f, cands[..n], cands[n], entries) {
        var e, x, y :| e in entries && Swapped(g, f, cands[..n], cands[n], e, x, y);
        HitOrder(g, f, cands[..n], e, y, x);
        assert false;
      }
    }
  }

  lemma {:induction false} KeepSnoc(g: Group, f: Format, cands: seq<Candidate>, c: Candidate, entries: seq<Entry>)
    requires Once(g)
    ensures Keep(g, f, cands + [c], entries)
         == Keep(g, f, cands, entries)
            + if Enlarges(g, f, cands, c, entries) || Reorders(g, f, cands, c, entries) then [c] else []
    ensures Surplus(g, f, cands + [c], entries)
         == Surplus(g, f, cands, entries)
            + if Needless(g, f, cands, c, entries) then 1 else 0
  {
    assert (cands + [c])[..|cands|] == cands;
    UniqueIff(g, f, cands, c, entries);
  }

  lemma {:induction false} NothingNew(g: Group, f: Format, cands: seq<Candidate>, c: Candidate, entries: seq<Entry>)
    requires !Enlarges(g, f, cands, c, entries)
    ensures forall e | e in entries :: Hits(g, f, cands + [c], e) == Hits(g, f, cands, e)
  {
    forall e | e in entries ensures Hits(g, f, cands + [c], e) == Hits(g, f, cands, e) {
      HitsSnoc(g, f, cands, c, e);
      JoinSame(Hits(g, f, cands, e), Counted(g, f, c, e));
    }
  }

  /** A list and n more of one candidate. */
  function Repeated(cands: seq<Candidate>, c: Candidate, n: nat): seq<Candidate> {
    if n == 0 then cands else Repeated(cands, c, n - 1) + [c]
  }

  /** Candidates kept: those of cands and n copies of c, which hit nothing new. */
  ghost predicate AllAgain(g: Group, f: Format, cands: seq<Candidate>, more: seq<Candidate>, c: Candidate, n: nat,
                           entries: seq<Entry>) {
    && Keep(g, f, more, entries) == Repeated(Keep(g, f, cands, entries), c, n)
    && Surplus(g, f, more, entries) == Surplus(g, f, cands, entries) + n
    && forall e | e in entries :: Hits(g, f, more, e) == Hits(g, f, cands, e)
  }

  lemma {:induction false} AllAgainNext(g: Group, f: Format, cands: seq<Candidate>, more: seq<Candidate>, c: Candidate,
                                        n: nat, entries: seq<Entry>)
    requires Once(g) && Needless(g, f, cands, c, entries)
    requires AllAgain(g, f, cands, more, c, n, entries)
    ensures AllAgain(g, f, cands, more + [c], c, n + 1, entries)
  {
    AgainOnce(g, f, cands, more, c, entries);
  }

  /** A candidate kept without hitting anything new is kept again as often as it comes: nothing bounds the surplus. */
  lemma {:induction false} KeptAgain(g: Group, f: Format, cands: seq<Candidate>, c: Candidate, n: nat,
                                     entries: seq<Entry>) returns (more: seq<Candidate>)
    requires Once(g) && Needless(g, f, cands, c, entries)
    ensures more == Repeated(cands, c, n)
    ensures AllAgain(g, f, cands, more, c, n, entries)
    decreases n
  {
    more := cands;
    for k := 0 to n
      invariant more == Repeated(cands, c, k) && AllAgain(g, f, cands, more, c, k, entries)
    {
      AllAgainNext(g, f, cands, more, c, k, entries);
      more := more + [c];
    }
  }

  lemma {:induction false} AgainOnce(g: Group, f: Format, cands: seq<Candidate>, before: seq<Candidate>, c: Candidate,
                                     entries: seq<Entry>)
    requires Once(g) && Needless(g, f, cands, c, entries)
    requires forall e | e in entries :: Hits(g, f, before, e) == Hits(g, f, cands, e)
    ensures Keep(g, f, before + [c], entries) == Keep(g, f, before, entries) + [c]
    ensures Surplus(g, f, before + [c], entries) == Surplus(g, f, before, entries) + 1
    ensures forall e | e in entries :: Hits(g, f, before + [c], e) == Hits(g, f, cands, e)
  {
    StillReorders(g, f, cands, before, c, entries);
    KeepSnoc(g, f, before, c, entries);
    NothingNew(g, f, before, c, entries);
  }

  /** Whether it reorders depends on the hits alone. */
  lemma {:induction false} StillReorders(g: Group, f: Format, cands: seq<Candidate>, more: seq<Candidate>,
                                         c: Candidate, entries: seq<Entry>)
    requires Once(g) && forall e | e in entries :: Hits(g, f, more, e) == Hits(g, f, cands, e)
    ensures Enlarges(g, f, more, c, entries) <==> Enlarges(g, f, cands, c, entries)
    ensures !Enlarges(g, f, cands, c, entries) ==>
              (Reorders(g, f, more, c, entries) <==> Reorders(g, f, cands, c, entries))
  {
    UniqueIff(g, f, cands, c, entries);
    UniqueIff(g, f, more, c, entries);
    if !Enlarges(g, f, cands, c, entries) {
      assert Unique(g, f, more, c, entries) <==> Unique(g, f, cands, c, entries);
    }
  }

  /** A list of candidates each of which hits something new is kept whole. */
  lemma {:induction false} AllKept(g: Group, f: Format, cands: seq<Candidate>, entries: seq<Entry>)
    requires Once(g) && EachNeeded(g, f, cands, entries)
    ensures Keep(g, f, cands, entries) == cands
  {
    var passes := Test(g, f, entries);
    forall k | 0 <= k < |cands| ensures passes(cands[..k], cands[k]) {
      assert NeededAt(g, f, cands, k, entries);
      UniqueIff(g, f, cands[..k], cands[k], entries);
    }
    KeepByAll(cands, passes);
  }
}
