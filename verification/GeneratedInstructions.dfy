/**
  From coverpoints to instructions: opcomb and valcomb find tuples, gen_inst makes
  candidates of them and filters those (riscv_ctg/generator.py).  What a test covers
  in the end is read off the list that is kept.
 */
module GeneratedInstructions {
  import opened Wrappers
  import opened OrderedSets
  import opened RegisterAllocation
  import opened InstructionSelection
  import opened CoverageFilter
  import OperandSearch
  import OperandOutcomes
  import ValueSearch

  /** The operands whose values the filter may ignore are different ones. */
  ghost predicate Apart(f: Format) {
    f.rs1.Some? ==> f.rs1 != f.rs2
  }

  /** Of rs1, rs2 and rd: a condition on values counts if it holds, the sources differ and none is x0 or f0. */
  lemma {:induction false} ValuesCountIff(g: Group, f: Format, c: Candidate, i: nat)
    requires g.named && i in g.vals && |c.regs| == 3 && f == Format(Some(0), Some(1), Some(2))
    ensures ValPoint(i) in Counted(g, f, c, ValComb)
            <==> g.valHolds(i, c.values) && c.regs[0] != c.regs[1]
                 && forall p | 0 <= p < 3 :: c.regs[p] != X(0) && c.regs[p] != F(0)
  {
    ListingIs(g, ValComb);
    SelectHas(Listing(g, ValComb), Holding(g, c), ValPoint(i));
  }

  /** With clean registers values are ignored just where f0 is an operand, which gen_inst does not repeat. */
  lemma {:induction false} IgnoredIff(f: Format, c: Candidate)
    requires Apart(f) && Clean(c.regs)
    ensures SkipsValues(f, c) <==> At(c, f.rs1) == Some(F(0)) || At(c, f.rs2) == Some(F(0)) || At(c, f.rd) == Some(F(0))
  {
    assert forall p: nat | p < |c.regs| :: c.regs[p] in c.regs;
  }

  /** An operand tuple with f0 is not taken for aliased, yet the values that go with it hit nothing. */
  lemma {:induction false} ZeroFloatLoses(g: Group, f: Format, values: seq<int>)
    requires f == Format(Some(0), Some(1), Some(2))
    ensures var op := [F(0), F(1), F(2)]; !Aliased(op) && Counted(g, f, Candidate(op, values), ValComb) == []
  {
  }

  lemma {:induction false} ValueHit(g: Group, f: Format, cands: seq<Candidate>, i: nat, c: Candidate)
    requires g.named && i in g.vals && g.valHolds(i, c.values) && c in cands && !SkipsValues(f, c)
    ensures ValPoint(i) in Hits(g, f, cands, ValComb)
  {
    ListingIs(g, ValComb);
    SelectHas(Listing(g, ValComb), Holding(g, c), ValPoint(i));
    assert ValPoint(i) in Counted(g, f, c, ValComb);
    HitsAre(g, f, cands, ValComb);
  }

  lemma {:induction false} RegisterHit(g: Group, f: Format, cands: seq<Candidate>, op: seq<Reg>, v: nat)
    requires g.named && v < |op| && v in g.regs && op[v] in g.regs[v] && OperandsUsed(cands, op)
    ensures RegPoint(op[v]) in Hits(g, f, cands, Operand(v))
  {
    var j :| 0 <= j < |cands| && cands[j].regs == op;
    assert RegPoint(op[v]) in Counted(g, f, cands[j], Operand(v));
    HitsAre(g, f, cands, Operand(v));
  }

  function Operands(n: nat): (r: seq<Entry>)
    ensures ValComb in r && OpComb in r && forall v: nat :: Operand(v) in r <==> v < n
    ensures Distinct(r)
  {
    if n == 0 then [ValComb, OpComb] else Operands(n - 1) + [Operand(n - 1)]
  }

  /** What the covergroup asks for: registers per operand, conditions on operands, conditions on values. */
  ghost predicate Asks(g: Group, requested: seq<set<Reg>>, wanted: seq<nat>, cs: OperandSearch.Conditions,
                       ps: ValueSearch.Points) {
    && g.named && Once(g) && g.valHolds == ps.holds && g.opHolds == cs.holds
    && (forall i :: i in g.vals <==> i < ps.n) && (forall i :: i in g.ops <==> i in wanted)
    && (forall v: nat | v < |requested| && requested[v] != {} :: v in g.regs && g.regs[v] == requested[v])
  }

  /** The candidate that uses the k-th value tuple as it is. */
  function UserOf(ops: seq<seq<Reg>>, defaults: seq<Reg>, tuples: seq<ValueSearch.Tuple>, k: nat): Candidate
    requires k < |tuples|
  {
    Candidate(UsedWith(ops, defaults, k), tuples[k].values)
  }

  /**
    Whatever a value tuple satisfies is hit by an instruction that is kept, unless
    the filter ignores the values of the candidate that uses it.
   */
  ghost predicate ValuesCovered(g: Group, f: Format, ps: ValueSearch.Points, ops: seq<seq<Reg>>, defaults: seq<Reg>,
                                tuples: seq<ValueSearch.Tuple>, kept: seq<Candidate>) {
    forall k: nat, i: nat | k < |tuples| && i < ps.n && ps.holds(i, tuples[k].values) ::
      SkipsValues(f, UserOf(ops, defaults, tuples, k)) || ValPoint(i) in Hits(g, f, kept, ValComb)
  }

  /** Every value coverpoint the datasets can satisfy is hit by an instruction that is kept. */
  ghost predicate AllValuesCovered(g: Group, f: Format, ps: ValueSearch.Points, valDomains: seq<seq<int>>,
                                   kept: seq<Candidate>) {
    forall i: nat | i < ps.n && !ps.nosat(i) && ValueSearch.Satisfiable(ps, valDomains, i) ::
        ValPoint(i) in Hits(g, f, kept, ValComb)
  }

  /** Every requested register is hit in its place, and every requested condition but the lost ones. */
  ghost predicate OperandsCovered(g: Group, f: Format, requested: seq<set<Reg>>, wanted: seq<nat>, lost: set<nat>,
                                  kept: seq<Candidate>) {
    && (forall v: nat, r | v < |requested| && r in requested[v] :: RegPoint(r) in Hits(g, f, kept, Operand(v)))
    && (forall c | c in wanted :: c in lost || OpPoint(c) in Hits(g, f, kept, OpComb))
  }

  /** Candidates for all value tuples. */
  ghost predicate AllUsed(cands: seq<Candidate>, ops: seq<seq<Reg>>, defaults: seq<Reg>, tuples: seq<ValueSearch.Tuple>)
  {
    forall k: nat | k < |tuples| :: UserOf(ops, defaults, tuples, k) in cands
  }

  lemma {:induction false} ValuesReach(g: Group, f: Format, ps: ValueSearch.Points, ops: seq<seq<Reg>>,
                                       defaults: seq<Reg>, tuples: seq<ValueSearch.Tuple>, cands: seq<Candidate>)
    requires g.named && g.valHolds == ps.holds && (forall i :: i in g.vals <==> i < ps.n)
    requires AllUsed(cands, ops, defaults, tuples)
    ensures ValuesCovered(g, f, ps, ops, defaults, tuples, cands)
  {
    forall k: nat, i: nat | k < |tuples| && i < ps.n && ps.holds(i, tuples[k].values)
                            && !SkipsValues(f, UserOf(ops, defaults, tuples, k))
      ensures ValPoint(i) in Hits(g, f, cands, ValComb)
    {
      ValueHit(g, f, cands, i, UserOf(ops, defaults, tuples, k));
    }
  }

  /** The k-th value tuple is used where no f0 makes the filter ignore it. */
  ghost predicate NoZeroFloat(ops: seq<seq<Reg>>, defaults: seq<Reg>) {
    F(0) !in defaults && forall k | 0 <= k < |ops| :: F(0) !in ops[k]
  }

  /** Without f0, as with integer operands always, nothing the datasets can satisfy is missed. */
  lemma {:induction false} NoZeroCovered(g: Group, f: Format, ps: ValueSearch.Points, valDomains: seq<seq<int>>,
                                         ops: seq<seq<Reg>>, defaults: seq<Reg>, tuples: seq<ValueSearch.Tuple>,
                                         kept: seq<Candidate>)
    requires ValueSearch.Cover(ps, valDomains, [], tuples) && ValuesCovered(g, f, ps, ops, defaults, tuples, kept)
    requires Apart(f) && Clean(defaults) && NoZeroFloat(ops, defaults)
    ensures AllValuesCovered(g, f, ps, valDomains, kept)
  {
    forall i: nat | i < ps.n && !ps.nosat(i) && ValueSearch.Satisfiable(ps, valDomains, i)
      ensures ValPoint(i) in Hits(g, f, kept, ValComb)
    {
      ValueSearch.CoveredIff(ps, valDomains, tuples, i);
      var k :| 0 <= k < |tuples| && tuples[k].solved && ps.holds(i, tuples[k].values);
      var c := UserOf(ops, defaults, tuples, k);
      IgnoredIff(f, c);
      assert forall p: nat | p < |c.regs| :: c.regs[p] in c.regs;
    }
  }

  lemma {:induction false} OperandsReach(g: Group, f: Format, requested: seq<set<Reg>>, wanted: seq<nat>,
                                         cs: OperandSearch.Conditions, tuples: seq<OperandSearch.Tuple>, lost: set<nat>,
                                         cands: seq<Candidate>)
    requires OperandOutcomes.Complete(requested, wanted, cs, tuples, lost) && g.named && g.opHolds == cs.holds
    requires forall i :: i in g.ops <==> i in wanted
    requires forall v: nat | v < |requested| && requested[v] != {} :: v in g.regs && g.regs[v] == requested[v]
    requires forall k | 0 <= k < |tuples| :: OperandsUsed(cands, tuples[k].regs)
    ensures OperandsCovered(g, f, requested, wanted, lost, cands)
  {
    forall v: nat, r | v < |requested| && r in requested[v] ensures RegPoint(r) in Hits(g, f, cands, Operand(v)) {
      assert OperandSearch.Seen(tuples, v, r);
      var k :| 0 <= k < |tuples| && v < |tuples[k].regs| && tuples[k].regs[v] == r;
      RegisterHit(g, f, cands, tuples[k].regs, v);
    }
    forall c | c in wanted && c !in lost ensures OpPoint(c) in Hits(g, f, cands, OpComb) {
      assert OperandSearch.Met(tuples, c, cs);
      var k :| 0 <= k < |tuples| && cs.holds(c, tuples[k].regs);
      var j :| 0 <= j < |cands| && cands[j].regs == tuples[k].regs;
      ListingIs(g, OpComb);
      SelectHas(Listing(g, OpComb), Holding(g, cands[j]), OpPoint(c));
      assert OpPoint(c) in Counted(g, f, cands[j], OpComb);
      HitsAre(g, f, cands, OpComb);
    }
  }

  /** The choices gen_inst is made with. */
  datatype Setting = Setting(domains: seq<seq<Reg>>, valDomains: seq<seq<int>>, valOf: seq<Option<nat>>,
      defaults: seq<Reg>, f: Format)

  /** Default registers were found, and no dataset is empty. */
  ghost predicate Usable(t: Setting) {
    && Places(t.valOf, |t.valDomains|) && |t.valOf| == |t.domains| == |t.defaults| && Clean(t.defaults) && Apart(t.f)
    && forall v | 0 <= v < |t.valDomains| :: t.valDomains[v] != []
  }

  function RegsOf(tuples: seq<OperandSearch.Tuple>): (r: seq<seq<Reg>>)
    ensures |r| == |tuples| && forall k | 0 <= k < |tuples| :: r[k] == tuples[k].regs
  {
    seq(|tuples|, k requires 0 <= k < |tuples| => tuples[k].regs)
  }

  function ValuesOf(tuples: seq<ValueSearch.Tuple>): (r: seq<seq<int>>)
    ensures |r| == |tuples| && forall k | 0 <= k < |tuples| :: r[k] == tuples[k].values
  {
    seq(|tuples|, k requires 0 <= k < |tuples| => tuples[k].values)
  }

  /** The first value of each dataset. */
  function FirstValues(t: Setting): (r: seq<int>)
    requires Usable(t)
    ensures |r| == |t.valDomains| && forall v | 0 <= v < |r| :: r[v] == t.valDomains[v][0]
  {
    seq(|t.valDomains|, v requires 0 <= v < |t.valDomains| => t.valDomains[v][0])
  }

  /** The candidates are laid out as the tuples were found. */
  ghost predicate LaidFor(t: Setting, cands: seq<Candidate>, ops: seq<seq<Reg>>, tuples: seq<ValueSearch.Tuple>)
    requires Usable(t)
  {
    && (forall k | 0 <= k < |ops| :: |ops[k]| == |t.valOf|)
    && (forall k | 0 <= k < |tuples| :: |tuples[k].values| == |t.valDomains|)
    && exists first: seq<int> ::
         && |first| == |t.valDomains| && (forall v | 0 <= v < |first| :: first[v] == t.valDomains[v][0])
         && Laid(cands, ops, ValuesOf(tuples), t.valOf, t.defaults, first,
                 if |ops| < |tuples| then |tuples| else |ops|)
  }

  method GenInst(t: Setting, g: Group, ops: seq<seq<Reg>>, valTuples: seq<ValueSearch.Tuple>)
    returns (kept: seq<Candidate>, ghost cands: seq<Candidate>)
    requires Usable(t)
    requires forall k | 0 <= k < |ops| :: |ops[k]| == |t.valOf|
    requires forall k | 0 <= k < |valTuples| :: |valTuples[k].values| == |t.valDomains|
    ensures AllUsed(cands, ops, t.defaults, valTuples) && LaidFor(t, cands, ops, valTuples)
    ensures forall k | 0 <= k < |ops| :: OperandsUsed(cands, ops[k])
    ensures AllWellFormed(kept, t.valOf, |t.valDomains|)
    ensures kept == Keep(g, t.f, cands, Operands(|t.domains|))
    ensures forall e | e in Operands(|t.domains|) :: Hits(g, t.f, kept, e) == Hits(g, t.f, cands, e)
  {
    var first, vals := FirstValues(t), ValuesOf(valTuples);
    var list := Candidates(ops, vals, t.valOf, t.defaults, first);
    cands := list;
    forall k: nat | k < |valTuples| ensures UserOf(ops, t.defaults, valTuples, k) in cands {
      assert vals[k] == valTuples[k].values;
    }
    kept := Filter(g, t.f, list, Operands(|t.domains|));
    KeepFrom(g, t.f, cands, Operands(|t.domains|));
    forall j | 0 <= j < |kept| ensures WellFormed(kept[j], t.valOf, |t.valDomains|) {
      assert kept[j] in cands;
    }
    forall e | e in Operands(|t.domains|) ensures Hits(g, t.f, kept, e) == Hits(g, t.f, cands, e) {
      KeepHits(g, t.f, cands, Operands(|t.domains|), e);
    }
  }

  lemma {:induction false} NoZeroTuples(tuples: seq<OperandSearch.Tuple>, domains: seq<seq<Reg>>,
                                        cs: OperandSearch.Conditions, nodiff: bool, defaults: seq<Reg>)
    requires OperandSearch.AllHonest(tuples, domains, cs, nodiff) && F(0) !in defaults
    requires forall v | 0 <= v < |domains| :: F(0) !in domains[v]
    ensures NoZeroFloat(RegsOf(tuples), defaults)
  {
    forall k | 0 <= k < |tuples| ensures F(0) !in tuples[k].regs {
      assert OperandSearch.Honest(tuples[k], domains, cs);
    }
  }

  ghost predicate NoZeroInDatasets(t: Setting) {
    F(0) !in t.defaults && forall v | 0 <= v < |t.domains| :: F(0) !in t.domains[v]
  }

  lemma {:induction false} AllReached(t: Setting, g: Group, requested: seq<set<Reg>>, wanted: seq<nat>,
                                      cs: OperandSearch.Conditions, ps: ValueSearch.Points,
                                      opTuples: seq<OperandSearch.Tuple>, nodiff: bool, lost: set<nat>,
                                      tuples: seq<ValueSearch.Tuple>, cands: seq<Candidate>, kept: seq<Candidate>)
    requires Usable(t) && |requested| == |t.domains| && Asks(g, requested, wanted, cs, ps)
    requires OperandSearch.AllHonest(opTuples, t.domains, cs, nodiff)
    requires ValueSearch.Cover(ps, t.valDomains, [], tuples)
    requires AllUsed(cands, RegsOf(opTuples), t.defaults, tuples)
    requires forall k | 0 <= k < |opTuples| :: OperandsUsed(cands, RegsOf(opTuples)[k])
    requires forall e | e in Operands(|t.domains|) :: Hits(g, t.f, kept, e) == Hits(g, t.f, cands, e)
    ensures ValuesCovered(g, t.f, ps, RegsOf(opTuples), t.defaults, tuples, kept)
    ensures NoZeroInDatasets(t) ==> AllValuesCovered(g, t.f, ps, t.valDomains, kept)
    ensures OperandOutcomes.Complete(requested, wanted, cs, opTuples, lost) ==>
              OperandsCovered(g, t.f, requested, wanted, lost, kept)
  {
    var ops := RegsOf(opTuples);
    ValuesReach(g, t.f, ps, ops, t.defaults, tuples, cands);
    if NoZeroInDatasets(t) {
      NoZeroTuples(opTuples, t.domains, cs, nodiff, t.defaults);
      NoZeroCovered(g, t.f, ps, t.valDomains, ops, t.defaults, tuples, kept);
    }
    if OperandOutcomes.Complete(requested, wanted, cs, opTuples, lost) {
      OperandsReach(g, t.f, requested, wanted, cs, opTuples, lost, cands);
    }
  }

  /**
    opcomb, valcomb and gen_inst together; task is what opcomb was given, ops and
    tuples what the two searches returned.
   */
  method FromCoverpoints(t: Setting, g: Group, requested: seq<set<Reg>>, wanted: seq<nat>, cs: OperandSearch.Conditions,
                         ps: ValueSearch.Points, opSolver: OperandSearch.Problem -> Option<seq<Reg>>,
                         valSolver: (seq<seq<int>>, nat) -> Option<seq<int>>)
    returns (kept: seq<Candidate>, gaveUp: bool, exited: bool,
             ghost end: OperandSearch.Search, ghost ops: seq<seq<Reg>>, ghost tuples: seq<ValueSearch.Tuple>,
             ghost cands: seq<Candidate>)
    requires Usable(t) && |requested| == |t.domains| && Asks(g, requested, wanted, cs, ps)
    requires OperandSearch.Oracle(opSolver, cs) && ValueSearch.Oracle(ps, valSolver) && ValueSearch.Local(ps)
    ensures end == OperandOutcomes.Outcome(OperandSearch.Task(t.domains, requested, wanted, cs), opSolver)
            && gaveUp == end.gaveUp
    ensures !exited ==> ValueSearch.Cover(ps, t.valDomains, [], tuples)
    ensures !exited ==> ValuesCovered(g, t.f, ps, ops, t.defaults, tuples, kept)
    ensures !exited && NoZeroInDatasets(t) ==> AllValuesCovered(g, t.f, ps, t.valDomains, kept)
    ensures !exited && !gaveUp ==> OperandsCovered(g, t.f, requested, wanted, end.lost, kept)
    ensures !exited ==> AllWellFormed(kept, t.valOf, |t.valDomains|)
    ensures !exited ==> LaidFor(t, cands, ops, tuples) && kept == Keep(g, t.f, cands, Operands(|t.domains|))
    ensures !exited ==> |kept| <= Points(g, Operands(|t.domains|)) + Surplus(g, t.f, cands, Operands(|t.domains|))
  {
    ghost var task := OperandSearch.Task(t.domains, requested, wanted, cs);
    var opTuples, nodiff, valTuples;
    opTuples, gaveUp, nodiff, end := OperandSearch.OpComb(t.domains, requested, wanted, cs, opSolver);
    OperandOutcomes.CompleteUnlessGivenUp(task, opSolver);
    valTuples, exited := ValueSearch.ValComb(ps, t.valDomains, valSolver);
    var regs := RegsOf(opTuples);
    kept, ops, tuples, cands := [], regs, valTuples, [];
    if !exited {
      kept, cands := GenInst(t, g, regs, valTuples);
      KeepBound(g, t.f, cands, Operands(|t.domains|));
      AllReached(t, g, requested, wanted, cs, ps, opTuples, nodiff, end.lost, tuples, cands, kept);
    }
  }

  // ---------------------------------------------------------------------
  // Kept without need
  // ---------------------------------------------------------------------

  /** rs1_val == 3, then rs1_val & 1 != 0, then rs1_val & 2 != 0, for rs1_val between 0 and 3. */
  const LISTED := Group(true, [0, 1, 2], (i: nat, v: seq<int>) =>
    v != [] && if i == 0 then v[0] == 3 else if i == 1 then v[0] == 1 || v[0] == 3 else v[0] == 2 || v[0] == 3,
    [], (i: nat, r: seq<Reg>) => false, map[])

  const RFORMAT := Format(Some(0), Some(1), Some(2))

  const USED := [Candidate([X(1), X(2), X(3)], [2, 7]), Candidate([X(4), X(5), X(6)], [1, 7]),
                 Candidate([X(7), X(8), X(7)], [3, 7])]

  const AGAIN := Candidate([X(10), X(11), X(12)], [3, 7])

  /** Operands with values are different registers: nothing is to be repaired. */
  lemma {:induction false} NothingToRepair(op: seq<Reg>, valOf: seq<Option<nat>>, val: seq<int>)
    requires |op| == |valOf| == 3 && |val| == 2 && valOf[0] == Some(0) && valOf[1] == Some(1) && valOf[2] == None
    requires op[0] != op[1] && op[0] != X(0) && op[1] != X(0)
    ensures Places(valOf, |val|) && Consistent(op, valOf, val)
  {
  }

  /** Three combinations of rs1, rs2 and rd with two values: rd is rs1 in the third, whose values d repeats. */
  ghost predicate ThirdAliased(three: seq<Candidate>, d: Candidate, ops: seq<seq<Reg>>, vals: seq<seq<int>>) {
    && |three| == |ops| == |vals| == 3 && d.values == vals[2]
    && (forall k | 0 <= k < 3 :: three[k] == Candidate(ops[k], vals[k]) && |ops[k]| == 3 && |vals[k]| == 2)
    && !Aliased(ops[0]) && !Aliased(ops[1]) && Aliased(ops[2])
    && forall k | 0 <= k < 3 :: ops[k][0] != ops[k][1] && ops[k][0] != X(0) && ops[k][1] != X(0)
  }

  lemma {:induction false} ThirdRepeats(three: seq<Candidate>, d: Candidate, ops: seq<seq<Reg>>, vals: seq<seq<int>>,
                                        first: seq<int>)
    requires ThirdAliased(three, d, ops, vals)
    ensures Repeats(ops, vals, first, 3) == [d.values]
  {
    assert Repeats(ops, vals, first, 1) == [] && Repeats(ops, vals, first, 2) == [];
  }

  /** What a pair of tuples becomes: itself, or if the registers are aliased and no value is to be repaired, too. */
  lemma {:induction false} PairIs(c: Candidate, ops: seq<seq<Reg>>, vals: seq<seq<int>>, valOf: seq<Option<nat>>,
                                  defaults: seq<Reg>, first: seq<int>, k: nat)
    requires Places(valOf, |first|) && (forall j | 0 <= j < |ops| :: |ops[j]| == |valOf|)
    requires forall j | 0 <= j < |vals| :: |vals[j]| == |first|
    requires k < |ops| && k < |vals| && PairedAs(c, ops, vals, valOf, defaults, first, k)
    requires Consistent(ops[k], valOf, vals[k])
    ensures c == Candidate(ops[k], vals[k])
  {
    if Aliased(ops[k]) {
      RepairedConsistent(ops[k], valOf, vals[k], c.values);
    }
  }

  /** gen_inst makes four candidates of them. */
  lemma {:induction false} FourCandidates(cands: seq<Candidate>, three: seq<Candidate>, d: Candidate,
                                          ops: seq<seq<Reg>>, vals: seq<seq<int>>, valOf: seq<Option<nat>>,
                                          first: seq<int>)
    requires ThirdAliased(three, d, ops, vals) && |first| == 2
    requires |valOf| == 3 && valOf[0] == Some(0) && valOf[1] == Some(1) && valOf[2] == None
    requires Laid(cands, ops, vals, valOf, d.regs, first, 3)
    ensures cands == three + [d]
  {
    ThirdRepeats(three, d, ops, vals, first);
    var front, repeats := cands[..3], cands[3..];
    assert cands == front + repeats;
    assert repeats == [d];
    forall k: nat | k < 3 ensures front[k] == three[k] {
      NothingToRepair(ops[k], valOf, vals[k]);
      PairIs(front[k], ops, vals, valOf, d.regs, first, k);
    }
  }

  lemma {:induction false} Counts3(c: Candidate)
    requires !SkipsValues(RFORMAT, c)
    ensures Counted(LISTED, RFORMAT, c, ValComb)
         == (if Holding(LISTED, c)(ValPoint(0)) then [ValPoint(0)] else [])
            + (if Holding(LISTED, c)(ValPoint(1)) then [ValPoint(1)] else [])
            + (if Holding(LISTED, c)(ValPoint(2)) then [ValPoint(2)] else [])
  {
    var keep := Holding(LISTED, c);
    assert Listing(LISTED, ValComb) == [ValPoint(0)] + [ValPoint(1)] + [ValPoint(2)];
    SelectSnoc([ValPoint(0)] + [ValPoint(1)], ValPoint(2), keep);
    SelectSnoc([ValPoint(0)], ValPoint(1), keep);
    SelectSnoc([], ValPoint(0), keep);
  }

  lemma {:induction false} CountsAre(c: Candidate, v: int)
    requires 1 <= v <= 3 && c.values == [v, 7] && |c.regs| == 3 && c.regs[0] != c.regs[1]
    requires forall p | 0 <= p < 3 :: c.regs[p] != X(0) && c.regs[p] != F(0)
    ensures Counted(LISTED, RFORMAT, c, ValComb)
         == if v == 3 then [ValPoint(0), ValPoint(1), ValPoint(2)] else [ValPoint(v)]
  {
    Counts3(c);
  }

  /** Each of the three hits something new. */
  lemma {:induction false} ThreeNeeded(g: Group, f: Format, three: seq<Candidate>, d: Candidate, xs: seq<Point>,
                                       entries: seq<Entry>)
    requires Backwards(g, f, three, d, xs) && ValComb in entries
    ensures EachNeeded(g, f, three, entries)
  {
    forall k | 0 <= k < |three| ensures NeededAt(g, f, three, k, entries) {
      HitsAre(g, f, three[..k], ValComb);
      assert xs[2 - k] in Counted(g, f, three[k], ValComb);
      assert forall j | 0 <= j < k :: three[..k][j] == three[j] && xs[2 - k] !in Counted(g, f, three[j], ValComb);
    }
  }

  lemma {:induction false} DHitsNothingNew(g: Group, f: Format, three: seq<Candidate>, d: Candidate, xs: seq<Point>,
                                           entries: seq<Entry>)
    requires Backwards(g, f, three, d, xs)
    ensures forall x | x in xs :: x in Hits(g, f, three, ValComb)
    ensures !Enlarges(g, f, three, d, entries)
  {
    HitsAre(g, f, three, ValComb);
    forall x | x in xs ensures x in Hits(g, f, three, ValComb) {
      assert x in Counted(g, f, three[2], ValComb);
    }
  }

  /** d hits nothing new, but the first and the last of the conditions were hit the other way round. */
  lemma {:induction false} BackwardsReorders(g: Group, f: Format, three: seq<Candidate>, d: Candidate, xs: seq<Point>,
                                             entries: seq<Entry>)
    requires Backwards(g, f, three, d, xs) && ValComb in entries
    ensures Needless(g, f, three, d, entries)
  {
    var x, y := xs[0], xs[2];
    DHitsNothingNew(g, f, three, d, xs, entries);
    assert FirstHit(g, f, three, ValComb, y) < FirstHit(g, f, three, ValComb, x) by {
      FirstHitIs(g, f, three, ValComb, x);
      FirstHitIs(g, f, three, ValComb, y);
      assert y in Counted(g, f, three[0], ValComb) && x !in Counted(g, f, three[0], ValComb);
    }
    assert Swapped(g, f, three, d, ValComb, x, y);
  }

  /** Three conditions hit one by one from the last, the first together with the others; and once more by d. */
  ghost predicate Backwards(g: Group, f: Format, three: seq<Candidate>, d: Candidate, xs: seq<Point>) {
    && |three| == |xs| == 3 && Distinct(xs) && Before(Listing(g, ValComb), xs[0], xs[2])
    && Counted(g, f, three[0], ValComb) == [xs[2]] && Counted(g, f, three[1], ValComb) == [xs[1]]
    && Counted(g, f, three[2], ValComb) == xs && Counted(g, f, d, ValComb) == xs
    && forall e | e != ValComb :: Counted(g, f, d, e) == []
  }

  lemma {:induction false} BackwardsKept(g: Group, f: Format, three: seq<Candidate>, d: Candidate, xs: seq<Point>,
                                         entries: seq<Entry>, n: nat)
    requires Once(g) && Backwards(g, f, three, d, xs) && ValComb in entries
    ensures Keep(g, f, Repeated(three, d, n), entries) == Repeated(three, d, n)
  {
    ThreeNeeded(g, f, three, d, xs, entries);
    AllKept(g, f, three, entries);
    BackwardsReorders(g, f, three, d, xs, entries);
    var more := KeptAgain(g, f, three, d, n, entries);
  }

  lemma {:induction false} UsedCounts(k: nat)
    requires k < 3
    ensures Counted(LISTED, RFORMAT, USED[k], ValComb)
         == if k == 2 then [ValPoint(0), ValPoint(1), ValPoint(2)] else [ValPoint(2 - k)]
  {
    CountsAre(USED[k], if k == 2 then 3 else 2 - k);
  }

  lemma {:induction false} ListedInOrder()
    ensures Once(LISTED) && Before(Listing(LISTED, ValComb), ValPoint(0), ValPoint(2))
  {
    var list := Listing(LISTED, ValComb);
    assert list[0] == ValPoint(0) && list[2] == ValPoint(2);
  }

  lemma {:induction false} NoOtherCounts(c: Candidate, e: Entry)
    requires e != ValComb
    ensures Counted(LISTED, RFORMAT, c, e) == []
  {
    assert Listing(LISTED, e) == [];
  }

  lemma {:induction false} UsedBackwards(xs: seq<Point>)
    requires xs == [ValPoint(0), ValPoint(1), ValPoint(2)]
    ensures Once(LISTED) && Backwards(LISTED, RFORMAT, USED, AGAIN, xs)
  {
    UsedCounts(0);
    UsedCounts(1);
    UsedCounts(2);
    CountsAre(AGAIN, 3);
    ListedInOrder();
    forall e | e != ValComb ensures Counted(LISTED, RFORMAT, AGAIN, e) == [] {
      NoOtherCounts(AGAIN, e);
    }
  }

  /** However often the third's values come again, each repetition is kept; yet only three conditions are listed. */
  lemma {:induction false} NothingBounds(n: nat)
    ensures Keep(LISTED, RFORMAT, Repeated(USED, AGAIN, n), Operands(3)) == Repeated(USED, AGAIN, n)
    ensures Points(LISTED, Operands(3)) == 3
  {
    var xs := [ValPoint(0), ValPoint(1), ValPoint(2)];
    UsedBackwards(xs);
    BackwardsKept(LISTED, RFORMAT, USED, AGAIN, xs, Operands(3), n);
    ThreePoints();
  }

  /** gen_inst repeats them once, and keeps all four of its candidates. */
  lemma {:induction false} KeptWithoutNeed(cands: seq<Candidate>, ops: seq<seq<Reg>>, vals: seq<seq<int>>,
                                           valOf: seq<Option<nat>>, first: seq<int>)
    requires |ops| == |vals| == 3 && forall k | 0 <= k < 3 :: USED[k] == Candidate(ops[k], vals[k])
    requires valOf == [Some(0), Some(1), None] && |first| == 2
    requires Laid(cands, ops, vals, valOf, AGAIN.regs, first, 3)
    ensures Keep(LISTED, RFORMAT, cands, Operands(3)) == cands && |cands| == 4
  {
    assert ops[2][0] == ops[2][2] && Aliased(ops[2]);
    assert ThirdAliased(USED, AGAIN, ops, vals);
    FourCandidates(cands, USED, AGAIN, ops, vals, valOf, first);
    NothingBounds(1);
    assert Repeated(USED, AGAIN, 1) == Repeated(USED, AGAIN, 0) + [AGAIN];
  }

  lemma {:induction false} ThreePoints()
    ensures Points(LISTED, Operands(3)) == 3
  {
    assert AllPoints(LISTED, ValComb) == {ValPoint(0), ValPoint(1), ValPoint(2)};
    assert AllPoints(LISTED, OpComb) == {};
    assert forall p :: AllPoints(LISTED, Operand(p)) == {};
    assert Operands(0) == [ValComb] + [OpComb];
    assert Points(LISTED, [ValComb]) == 3;
    assert Points(LISTED, Operands(0)) == 3;
    assert Points(LISTED, Operands(1)) == 3;
    assert Points(LISTED, Operands(2)) == 3;
  }
}
