/**
  Which register `testreg` of riscv_ctg/generator.py picks, exactly, and when it
  can be the upper half of an operand pair.  The pass looks at an upper half only
  where the lower half is still in the pool, so the choice depends on what the
  earlier instructions of the block took out.
 */
module ScratchRegisters {
  import opened Wrappers
  import opened RegisterAllocation
  import opened RegisterPasses

  // ---------------------------------------------------------------------
  // Pools as sets, in order
  // ---------------------------------------------------------------------

  predicate In(pool: seq<Reg>, r: Option<Reg>) {
    r.Some? && r.value in pool
  }

  /** Registers in the order of their numbers. */
  ghost predicate Sorted(pool: seq<Reg>) {
    && (forall i | 0 <= i < |pool| :: pool[i].X?)
    && (forall i, j | 0 <= i < j < |pool| :: pool[i].n < pool[j].n)
  }

  lemma {:induction false} WithoutSorted(pool: seq<Reg>, r: Option<Reg>)
    requires Sorted(pool)
    ensures Sorted(Without(pool, r)) && forall x :: x in Without(pool, r) <==> x in pool && Some(x) != r
  {
    if pool != [] {
      var rest := pool[1..];
      assert Sorted(rest) && forall x :: x in pool <==> x == pool[0] || x in rest;
      assert forall x | x in rest :: x.X? && pool[0].n < x.n;
      WithoutSorted(rest, r);
      if Some(pool[0]) != r {
        var t := Without(rest, r);
        forall j | 0 <= j < |t| ensures t[j].X? && pool[0].n < t[j].n {
          assert t[j] in rest;
        }
      }
    }
  }

  lemma {:induction false} WithoutPairSorted(pool: seq<Reg>, r: Option<Reg>, hi: Option<Reg>)
    requires Sorted(pool)
    ensures Sorted(WithoutPair(pool, r, hi))
    ensures forall x :: x in WithoutPair(pool, r, hi) <==> x in pool && Passes(pool, r, hi, x)
  {
    WithoutSorted(pool, r);
    WithoutSorted(Without(pool, r), hi);
  }

  lemma {:induction false} WithoutAllSorted(pool: seq<Reg>, rs: seq<Option<Reg>>)
    requires Sorted(pool)
    ensures Sorted(WithoutAll(pool, rs)) && forall x :: x in WithoutAll(pool, rs) <==> x in pool && Some(x) !in rs
    decreases |rs|
  {
    if rs != [] {
      WithoutSorted(pool, rs[0]);
      WithoutAllSorted(Without(pool, rs[0]), rs[1..]);
      assert forall r :: r in rs <==> r == rs[0] || r in rs[1..];
    }
  }

  lemma {:induction false} FirstIsLowest(pool: seq<Reg>, x: Reg)
    requires Sorted(pool) && pool != []
    ensures pool[0] == x <==> x in pool && forall y | y in pool :: x.n <= y.n
  {
    assert pool[0] in pool;
  }

  // ---------------------------------------------------------------------
  // What an instruction spares
  // ---------------------------------------------------------------------

  /** The operand (r, hi) leaves x in the pool: x is neither half, or r was gone before. */
  predicate Passes(pool: seq<Reg>, r: Option<Reg>, hi: Option<Reg>, x: Reg) {
    In(pool, r) ==> Some(x) != r && Some(x) != hi
  }

  /** Instruction i leaves x in the pool, its operands looked at in turn. */
  predicate Spares(i: Instr, pool: seq<Reg>, x: Reg) {
    var pool2 := WithoutPair(pool, i.rs1, i.rs1Hi);
    var pool3 := WithoutPair(pool2, i.rs2, i.rs2Hi);
    Passes(pool, i.rs1, i.rs1Hi, x) && Passes(pool2, i.rs2, i.rs2Hi, x) && Passes(pool3, i.rd, i.rdHi, x)
        && Some(x) != i.swreg
  }

  lemma {:induction false} ClearTestSorted(pool: seq<Reg>, i: Instr)
    requires Sorted(pool)
    ensures Sorted(ClearTest(pool, i)) && forall x :: x in ClearTest(pool, i) <==> x in pool && Spares(i, pool, x)
  {
    var pool2 := WithoutPair(pool, i.rs1, i.rs1Hi);
    var pool3 := WithoutPair(pool2, i.rs2, i.rs2Hi);
    var pool4 := WithoutPair(pool3, i.rd, i.rdHi);
    WithoutPairSorted(pool, i.rs1, i.rs1Hi);
    WithoutPairSorted(pool2, i.rs2, i.rs2Hi);
    WithoutPairSorted(pool3, i.rd, i.rdHi);
    WithoutSorted(pool4, i.swreg);
    forall x ensures x in Without(pool4, i.swreg) <==> x in pool && Spares(i, pool, x) {
      assert x in pool2 <==> x in pool && Passes(pool, i.rs1, i.rs1Hi, x);
      assert x in pool3 <==> x in pool2 && Passes(pool2, i.rs2, i.rs2Hi, x);
      assert x in pool4 <==> x in pool3 && Passes(pool3, i.rd, i.rdHi, x);
    }
  }

  /** The pool of testreg before instruction j of the block from b. */
  function TestPool(s: seq<Instr>, c: Config, b: nat, j: nat): seq<Reg>
    requires b <= j <= |s|
  {
    Pool(TestRules(c), s, Regs(c), b, j)
  }

  /** x is a register that every instruction of the block spares. */
  ghost predicate Survives(s: seq<Instr>, c: Config, b: nat, e: nat, x: Reg)
    requires b <= e <= |s|
  {
    x in Regs(c) && forall j | b <= j < e :: Spares(s[j], TestPool(s, c, b, j), x)
  }

  lemma {:induction false} RegsSorted(c: Config)
    ensures Sorted(Regs(c)) && forall n: nat :: X(n) in Regs(c) <==> 1 <= n <= c.numRegs
  {
    forall n: nat ensures X(n) in Regs(c) <==> 1 <= n <= c.numRegs {
      if 1 <= n <= c.numRegs { assert Regs(c)[n - 1] == X(n); }
    }
  }

  lemma {:induction false} SurvivesNext(s: seq<Instr>, c: Config, b: nat, e: nat, x: Reg)
    requires b < e <= |s|
    ensures Survives(s, c, b, e, x) <==> Survives(s, c, b, e - 1, x) && Spares(s[e - 1], TestPool(s, c, b, e - 1), x)
  {
  }

  lemma {:induction false} SurvivorsNext(s: seq<Instr>, c: Config, b: nat, e: nat, f: nat, pool: seq<Reg>,
                                         next: seq<Reg>)
    requires b <= e < |s| && f == e + 1 && pool == TestPool(s, c, b, e)
    requires forall x :: x in pool <==> Survives(s, c, b, e, x)
    requires forall x :: x in next <==> x in pool && Spares(s[e], pool, x)
    ensures forall x :: x in next <==> Survives(s, c, b, f, x)
  {
    forall x ensures x in next <==> Survives(s, c, b, f, x) {
      SurvivesNext(s, c, b, f, x);
    }
  }

  lemma {:induction false} AllSurvive(s: seq<Instr>, c: Config, b: nat)
    requires b <= |s|
    ensures Sorted(TestPool(s, c, b, b)) && forall x :: x in TestPool(s, c, b, b) <==> Survives(s, c, b, b, x)
  {
    RegsTogether(c);
  }

  ghost predicate PoolIs(s: seq<Instr>, c: Config, b: nat, e: nat)
    requires b <= e <= |s|
  {
    Sorted(TestPool(s, c, b, e)) && forall x :: x in TestPool(s, c, b, e) <==> Survives(s, c, b, e, x)
  }

  lemma {:induction false} PoolIsNext(s: seq<Instr>, c: Config, b: nat, e: nat, f: nat)
    requires b <= e < |s| && f == e + 1 && PoolIs(s, c, b, e)
    ensures PoolIs(s, c, b, f)
  {
    var pool, next := TestPool(s, c, b, e), TestPool(s, c, b, f);
    assert next == ClearTest(pool, s[e]);
    ClearTestSorted(pool, s[e]);
    SurvivorsNext(s, c, b, e, f, pool, next);
  }

  /** The pool is what survives, in order. */
  lemma {:induction false} PoolIsSurvivors(s: seq<Instr>, c: Config, b: nat, e: nat)
    requires b <= e <= |s|
    ensures PoolIs(s, c, b, e)
    decreases e
  {
    if b < e {
      var d := e - 1;
      PoolIsSurvivors(s, c, b, d);
      PoolIsNext(s, c, b, d, e);
    } else {
      AllSurvive(s, c, b);
    }
  }

  /** The block of instruction i. */
  function TestBlock(s: seq<Instr>, c: Config, i: nat): (r: (nat, nat))
    requires i < |s|
    ensures r.0 <= i < r.1 <= |s|
  {
    (Start(Closes(TestRules(c), s, Regs(c)), i), End(Closes(TestRules(c), s, Regs(c)), |s|, i))
  }

  ghost predicate TestReady(s: seq<Instr>, c: Config) {
    Room(c) + 3 < c.numRegs && forall j | 0 <= j < |s| :: Fits(s[j], c) && s[j].testreg.None?
  }

  /** testreg is the lowest register that survives the block: for every list and every register. */
  lemma {:induction false} TestregIs(s: seq<Instr>, c: Config, i: nat, x: Reg)
    requires i < |s| && TestReady(s, c)
    ensures var (b, e) := TestBlock(s, c, i);
            Results(TestRules(c), s, Regs(c))[i].testreg == Some(x)
            <==> Survives(s, c, b, e, x) && forall y | Survives(s, c, b, e, y) :: x.n <= y.n
  {
    var (b, e) := TestBlock(s, c, i);
    TestLawful(s, c);
    var pool, k := Pick(TestRules(c), s, Regs(c), Room(c) + 1, TestAvoids, i);
    PoolIsSurvivors(s, c, b, e);
    FirstIsLowest(pool, x);
  }

  /** So it is an upper half of its own instruction exactly if that half is the lowest survivor. */
  lemma {:induction false} TestregHitsHalfIff(s: seq<Instr>, c: Config, i: nat)
    requires i < |s| && TestReady(s, c)
    ensures var (b, e) := TestBlock(s, c, i);
            Results(TestRules(c), s, Regs(c))[i].testreg in [s[i].rs1Hi, s[i].rs2Hi, s[i].rdHi]
            <==> exists x :: && Some(x) in [s[i].rs1Hi, s[i].rs2Hi, s[i].rdHi] && Survives(s, c, b, e, x)
                             && forall y | Survives(s, c, b, e, y) :: x.n <= y.n
  {
    var (b, e) := TestBlock(s, c, i);
    var halves := [s[i].rs1Hi, s[i].rs2Hi, s[i].rdHi];
    TestPick(s, c, i);
    var r := Results(TestRules(c), s, Regs(c))[i].testreg;
    TestregIs(s, c, i, r.value);
    if x :| Some(x) in halves && Survives(s, c, b, e, x) && forall y | Survives(s, c, b, e, y) :: x.n <= y.n {
      TestregIs(s, c, i, x);
    }
  }

  // ---------------------------------------------------------------------
  // Every operand a pair
  // ---------------------------------------------------------------------

  /** An operand that is a pair (x2k, x2k+1), or is not there; x1 is in no pair. */
  predicate EvenPair(r: Option<Reg>, hi: Option<Reg>) {
    (r.None? && hi.None?)
    || (r.Some? && hi.Some? && r.value.X? && r.value.n >= 2 && r.value.n % 2 == 0 && hi.value == X(r.value.n + 1))
  }

  predicate AllPairs(i: Instr) {
    EvenPair(i.rs1, i.rs1Hi) && EvenPair(i.rs2, i.rs2Hi) && EvenPair(i.rd, i.rdHi)
  }

  /** Lower and upper halves are in the pool together. */
  ghost predicate Together(pool: seq<Reg>) {
    forall n: nat {:trigger X(n) in pool} | n >= 2 && n % 2 == 0 && X(n + 1) in pool :: X(n) in pool
  }

  lemma {:induction false} PairLeavesTogether(pool: seq<Reg>, r: Option<Reg>, hi: Option<Reg>)
    requires Sorted(pool) && Together(pool) && EvenPair(r, hi)
    ensures Sorted(WithoutPair(pool, r, hi)) && Together(WithoutPair(pool, r, hi))
    ensures forall x :: x in WithoutPair(pool, r, hi) <==> x in pool && Some(x) != r && Some(x) != hi
  {
    WithoutPairSorted(pool, r, hi);
    var rest := WithoutPair(pool, r, hi);
    if r.Some? {
      assert hi.value in pool ==> X(r.value.n) in pool;
    }
    forall n: nat | n >= 2 && n % 2 == 0 && X(n + 1) in rest ensures X(n) in rest {
      assert X(n + 1) in pool && X(n) in pool;
    }
  }

  lemma {:induction false} ClearPairs(pool: seq<Reg>, i: Instr)
    requires Sorted(pool) && Together(pool) && AllPairs(i) && i.swreg == Some(X(1))
    ensures Sorted(ClearTest(pool, i)) && Together(ClearTest(pool, i))
    ensures forall x | x in ClearTest(pool, i) :: x in pool && Some(x) !in Operands(i) && x != X(1)
  {
    var pool2 := WithoutPair(pool, i.rs1, i.rs1Hi);
    var pool3 := WithoutPair(pool2, i.rs2, i.rs2Hi);
    var pool4 := WithoutPair(pool3, i.rd, i.rdHi);
    PairLeavesTogether(pool, i.rs1, i.rs1Hi);
    PairLeavesTogether(pool2, i.rs2, i.rs2Hi);
    PairLeavesTogether(pool3, i.rd, i.rdHi);
    WithoutSorted(pool4, i.swreg);
    var rest := ClearTest(pool, i);
    forall n: nat | n >= 2 && n % 2 == 0 && X(n + 1) in rest ensures X(n) in rest {
      assert X(n + 1) in pool4 && X(n) in pool4;
    }
  }

  ghost predicate AllPaired(s: seq<Instr>) {
    forall j | 0 <= j < |s| :: AllPairs(s[j]) && s[j].swreg == Some(X(1))
  }

  lemma {:induction false} RegsTogether(c: Config)
    ensures Sorted(Regs(c)) && Together(Regs(c)) && (c.numRegs >= 1 ==> X(1) in Regs(c))
  {
    RegsSorted(c);
  }

  /** What the pool of a block of pairs keeps to. */
  ghost predicate PairsKept(s: seq<Instr>, b: nat, e: nat, pool: seq<Reg>)
    requires b <= e <= |s|
  {
    Sorted(pool) && Together(pool) && forall j, x | b <= j < e && x in pool :: Some(x) !in Operands(s[j])
  }

  lemma {:induction false} PairsKeptNext(s: seq<Instr>, b: nat, e: nat, pool: seq<Reg>)
    requires b < e <= |s| && AllPaired(s) && PairsKept(s, b, e - 1, pool)
    ensures PairsKept(s, b, e, ClearTest(pool, s[e - 1]))
  {
    ClearPairs(pool, s[e - 1]);
  }

  lemma {:induction false} PairedPool(s: seq<Instr>, c: Config, b: nat, e: nat)
    requires b <= e <= |s| && AllPaired(s)
    ensures PairsKept(s, b, e, TestPool(s, c, b, e))
    decreases e
  {
    if b < e {
      PairedPool(s, c, b, e - 1);
      PairsKeptNext(s, b, e, TestPool(s, c, b, e - 1));
    } else {
      RegsTogether(c);
    }
  }

  /** The signature pointer of a list of pairs is x1, the one register no pair has. */
  lemma {:induction false} PairsUseX1(s: seq<Instr>, c: Config, i: nat)
    requires i < |s| && Fresh(s, c) && forall j | 0 <= j < |s| :: AllPairs(s[j])
    ensures AfterSw(s, c)[i].swreg == Some(X(1))
  {
    SwLawful(s, c);
    var pool, k := Pick(SwRules(c), s, Regs(c), Room(c), SwAvoids, i);
    var closes := Closes(SwRules(c), s, Regs(c));
    X1Stays(s, c, Start(closes, i), End(closes, |s|, i));
    FirstIsLowest(pool, X(1));
    forall y | y in pool ensures 1 <= y.n {
      assert y in Regs(c);
    }
  }

  lemma {:induction false} X1Next(pool: seq<Reg>, i: Instr)
    requires Sorted(pool) && X(1) in pool && AllPairs(i) && i.testreg.None?
    ensures Sorted(ClearSw(pool, i)) && X(1) in ClearSw(pool, i)
  {
    WithoutAllSorted(pool, Operands(i) + [i.testreg]);
    assert Some(X(1)) !in Operands(i);
  }

  lemma {:induction false} X1Stays(s: seq<Instr>, c: Config, b: nat, e: nat)
    requires b <= e <= |s| && Fresh(s, c) && forall j | 0 <= j < |s| :: AllPairs(s[j])
    ensures Sorted(Pool(SwRules(c), s, Regs(c), b, e)) && X(1) in Pool(SwRules(c), s, Regs(c), b, e)
    decreases e
  {
    if b < e {
      X1Stays(s, c, b, e - 1);
      X1Next(Pool(SwRules(c), s, Regs(c), b, e - 1), s[e - 1]);
    } else {
      RegsTogether(c);
    }
  }

  /** Where every operand is a pair, testreg is none of an instruction's operands, halves or signature pointer. */
  lemma {:induction false} PairsSafe(s: seq<Instr>, c: Config, i: nat)
    requires i < |s| && Fresh(s, c) && forall j | 0 <= j < |s| :: AllPairs(s[j])
    ensures var t := AfterTest(s, c)[i];
            t.testreg.Some? && t.testreg !in Operands(t) && t.testreg != t.swreg && Operands(t) == Operands(s[i])
  {
    var s1 := AfterSw(s, c);
    AfterSwFits(s, c);
    AfterTestFits(s, c);
    forall j | 0 <= j < |s| ensures AllPairs(s1[j]) && s1[j].swreg == Some(X(1)) {
      PairsUseX1(s, c, j);
      SwPick(s, c, j);
    }
    TestLawful(s1, c);
    TestPick(s1, c, i);
    var pool, k := Pick(TestRules(c), s1, Regs(c), Room(c) + 1, TestAvoids, i);
    var (b, e) := TestBlock(s1, c, i);
    PairedPool(s1, c, b, e);
    assert pool[0] in TestPool(s1, c, b, e);
  }

  // ---------------------------------------------------------------------
  // Where it goes wrong
  // ---------------------------------------------------------------------

  /** One paired destination beside two plain sources: rs1, rs2, (rd, rd + 1). */
  function PairedRd(rs1: nat, rs2: nat, rd: nat): Instr {
    Instr(Some(X(rs1)), Some(X(rs2)), Some(X(rd)), None, None, Some(X(rd + 1)), None, 0, None, None, 0, None)
  }

  /** Two instructions take too little for the pool to run low: they are one block. */
  lemma {:induction false} OneBlock(r: Rules, s: seq<Instr>, regs: seq<Reg>, drop: nat,
                                    avoids: Instr -> seq<Option<Reg>>)
    requires |s| == 2 && Lawful(r, s, regs, drop, avoids) && |regs| > r.limit + 2 * drop
    ensures var closes := Closes(r, s, regs);
            Start(closes, 0) == 0 && Start(closes, 1) == 0 && End(closes, 2, 0) == 2 && End(closes, 2, 1) == 2
    ensures forall i | 0 <= i < 2 :: BlockPool(r, s, regs, i) == r.clear(r.clear(regs, s[0]), s[1])
  {
    assert ClearsWell(Pool(r, s, regs, 0, 0), Pool(r, s, regs, 0, 1), drop, avoids(s[0]));
    EndIs(Closes(r, s, regs), 2, 0, 2);
    assert Pool(r, s, regs, 0, 1) == r.clear(regs, s[0]);
  }

  /** The two instructions of the failing list. */
  function Failing(): seq<Instr> {
    [PairedRd(2, 1, 4), PairedRd(1, 1, 2)]
  }

  ghost predicate FailingSetting(c: Config) {
    c.numRegs == 31 && c.numOps == 3 && c.paired == 1
  }

  lemma {:induction false} FailingFresh(c: Config)
    requires FailingSetting(c)
    ensures Fresh(Failing(), c)
  {
    forall i | 0 <= i < 2 ensures Fits(Failing()[i], c) {
      var a := Failing()[i];
      PresentOperands(a, []);
      assert Operands(a) + [] == Operands(a);
      assert [a.rs1Hi] == [None] && [a.rs2Hi] == [None];
      PresentCons(a.rs1, [a.rs1Hi]);
      PresentCons(a.rs2, [a.rs2Hi]);
      PresentCons(a.rd, [a.rdHi]);
      assert [a.rs1, a.rs1Hi] == [a.rs1] + [a.rs1Hi] && [a.rs2, a.rs2Hi] == [a.rs2] + [a.rs2Hi]
          && [a.rd, a.rdHi] == [a.rd] + [a.rdHi];
    }
  }

  lemma {:induction false} SixIsFirst(regs: seq<Reg>, s: seq<Instr>, pool: seq<Reg>)
    requires Sorted(regs) && X(6) in regs && (forall y | y in regs :: 1 <= y.n) && s == Failing()
    requires pool == ClearSw(ClearSw(regs, s[0]), s[1]) && pool != []
    ensures pool[0] == X(6)
  {
    WithoutAllSorted(regs, Operands(s[0]) + [s[0].testreg]);
    WithoutAllSorted(ClearSw(regs, s[0]), Operands(s[1]) + [s[1].testreg]);
    FirstIsLowest(pool, X(6));
    forall y | y in pool ensures 6 <= y.n {
      assert Some(y) !in [s[0].rs1, s[0].rs2, s[0].rd, s[0].rdHi, s[1].rdHi];
    }
  }

  lemma {:induction false} RegsForSix(c: Config)
    requires c.numRegs >= 6
    ensures Sorted(Regs(c)) && X(6) in Regs(c) && forall y | y in Regs(c) :: 1 <= y.n
  {
    RegsSorted(c);
  }

  /** Both get x6 for their signature pointer. */
  lemma {:induction false} FailingSw(c: Config, i: nat)
    requires FailingSetting(c) && i < 2
    ensures Fresh(Failing(), c) && AfterSw(Failing(), c)[i].swreg == Some(X(6))
  {
    var s, regs := Failing(), Regs(c);
    FailingFresh(c);
    SwLawful(s, c);
    OneBlock(SwRules(c), s, regs, Room(c), SwAvoids);
    var pool, k := Pick(SwRules(c), s, regs, Room(c), SwAvoids, i);
    RegsForSix(c);
    SixIsFirst(regs, s, pool);
  }

  /**
    rs1 of the first instruction takes x2 out of the pool; the second's pair
    (x2, x3) is then not looked at, and x3, its upper half, becomes testreg.
   */
  lemma {:induction false} HalfTaken(c: Config)
    requires FailingSetting(c)
    ensures Fresh(Failing(), c) && AfterTest(Failing(), c)[1].testreg == Failing()[1].rdHi == Some(X(3))
  {
    var s := AfterSw(Failing(), c);
    FailingSw(c, 0);
    FailingSw(c, 1);
    SwPick(Failing(), c, 0);
    SwPick(Failing(), c, 1);
    AfterSwFits(Failing(), c);
    TestLawful(s, c);
    OneBlock(TestRules(c), s, Regs(c), Room(c) + 1, TestAvoids);
    FailingSurvivors(s, c);
    TestregIs(s, c, 1, X(3));
  }

  lemma {:induction false} FailingSurvivors(s: seq<Instr>, c: Config)
    requires FailingSetting(c) && |s| == 2
    requires forall i | 0 <= i < 2 :: Operands(s[i]) == Operands(Failing()[i]) && s[i].swreg == Some(X(6))
    ensures Survives(s, c, 0, 2, X(3)) && forall y | Survives(s, c, 0, 2, y) :: 3 <= y.n
  {
    RegsSorted(c);
    ClearTestSorted(Regs(c), s[0]);
    var pool1 := TestPool(s, c, 0, 1);
    assert pool1 == ClearTest(Regs(c), s[0]) && TestPool(s, c, 0, 0) == Regs(c);
    forall i | 0 <= i < 2 ensures
        s[i].rs1 == Failing()[i].rs1 && s[i].rs2 == Failing()[i].rs2 && s[i].rd == Failing()[i].rd
        && s[i].rs1Hi.None? && s[i].rs2Hi.None? && s[i].rdHi == Failing()[i].rdHi
    {
      assert Operands(s[i])[0] == Operands(Failing()[i])[0] && Operands(s[i])[1] == Operands(Failing()[i])[1]
          && Operands(s[i])[2] == Operands(Failing()[i])[2] && Operands(s[i])[3] == Operands(Failing()[i])[3]
          && Operands(s[i])[4] == Operands(Failing()[i])[4] && Operands(s[i])[5] == Operands(Failing()[i])[5];
    }
    FailingSpares(Regs(c), s[0]);
    assert X(2) !in pool1;
    PairGone(pool1, s[1]);
    SurvivesNext(s, c, 0, 1, X(3));
    SurvivesNext(s, c, 0, 2, X(3));
    forall y | Survives(s, c, 0, 2, y) ensures 3 <= y.n {
      SurvivesNext(s, c, 0, 2, y);
      SurvivesNext(s, c, 0, 1, y);
    }
  }

  /** The first instruction takes x1 and x2 and leaves x3. */
  lemma {:induction false} FailingSpares(pool: seq<Reg>, i: Instr)
    requires Sorted(pool) && X(1) in pool && X(2) in pool && X(3) in pool && X(4) in pool
    requires i.rs1 == Some(X(2)) && i.rs2 == Some(X(1)) && i.rd == Some(X(4)) && i.swreg == Some(X(6))
    requires i.rs1Hi.None? && i.rs2Hi.None? && i.rdHi == Some(X(5))
    ensures Spares(i, pool, X(3)) && !Spares(i, pool, X(1)) && !Spares(i, pool, X(2))
  {
    WithoutPairSorted(pool, i.rs1, i.rs1Hi);
    WithoutPairSorted(WithoutPair(pool, i.rs1, i.rs1Hi), i.rs2, i.rs2Hi);
  }

  /** With x2 gone the pair (x2, x3) is passed over. */
  lemma {:induction false} PairGone(pool: seq<Reg>, i: Instr)
    requires Sorted(pool) && X(2) !in pool
    requires i.rs1 == Some(X(1)) && i.rs2 == Some(X(1)) && i.rd == Some(X(2)) && i.swreg == Some(X(6))
    requires i.rs1Hi.None? && i.rs2Hi.None? && i.rdHi == Some(X(3))
    ensures Spares(i, pool, X(3))
  {
    WithoutPairSorted(pool, i.rs1, i.rs1Hi);
    WithoutPairSorted(WithoutPair(pool, i.rs1, i.rs1Hi), i.rs2, i.rs2Hi);
  }
}
