/**
  The blocks of `swreg` and `valreg` in riscv_ctg/generator.py, exactly: when a
  block closes, which registers it takes, and the offset of every instruction.  The
  registers a block leaves are counted by the fields its instructions name.
 */
module BlockRegisters {
  import opened Wrappers
  import opened RegisterAllocation
  import opened RegisterPasses
  import opened ScratchRegisters

  /** Instruction i names r as an operand or as the upper half of one. */
  predicate Names(i: Instr, r: Reg) {
    || i.rs1 == Some(r) || i.rs2 == Some(r) || i.rd == Some(r)
    || i.rs1Hi == Some(r) || i.rs2Hi == Some(r) || i.rdHi == Some(r)
  }

  /** What swreg may not pick. */
  predicate Busy(i: Instr, r: Reg) {
    Names(i, r) || i.testreg == Some(r)
  }

  /** What valreg may not pick. */
  predicate BusyForData(i: Instr, r: Reg) {
    Names(i, r) || i.swreg == Some(r) || i.testreg == Some(r)
  }

  /** The registers x1 to x<numRegs> that are free in all instructions from b to e. */
  ghost function LeftBy(s: seq<Instr>, c: Config, busy: (Instr, Reg) -> bool, b: nat, e: nat): set<Reg>
    requires b <= e <= |s|
  {
    set n: nat | 1 <= n <= c.numRegs && forall j | b <= j < e :: !busy(s[j], X(n)) :: X(n)
  }

  lemma {:induction false} LeftNext(s: seq<Instr>, c: Config, busy: (Instr, Reg) -> bool, b: nat, e: nat)
    requires b < e <= |s|
    ensures forall x :: x in LeftBy(s, c, busy, b, e) <==> x in LeftBy(s, c, busy, b, e - 1) && !busy(s[e - 1], x)
  {
  }

  /** The pass takes out just what is busy. */
  ghost predicate ClearsBusy(r: Rules, busy: (Instr, Reg) -> bool) {
    forall pool, i | Sorted(pool) ::
      Sorted(r.clear(pool, i)) && forall x :: x in r.clear(pool, i) <==> x in pool && !busy(i, x)
  }

  lemma {:induction false} SwClearsBusy(c: Config)
    ensures ClearsBusy(SwRules(c), Busy)
  {
    forall pool, i | Sorted(pool)
      ensures Sorted(ClearSw(pool, i)) && forall x :: x in ClearSw(pool, i) <==> x in pool && !Busy(i, x)
    {
      WithoutAllSorted(pool, Operands(i) + [i.testreg]);
    }
  }

  lemma {:induction false} ValClearsBusy(c: Config)
    ensures ClearsBusy(ValRules(c), BusyForData)
  {
    forall pool, i | Sorted(pool)
      ensures Sorted(ClearVal(pool, i)) && forall x :: x in ClearVal(pool, i) <==> x in pool && !BusyForData(i, x)
    {
      WithoutAllSorted(pool, Operands(i) + [i.swreg, i.testreg]);
    }
  }

  lemma {:induction false} SortedSize(pool: seq<Reg>, all: set<Reg>)
    requires Sorted(pool) && forall x :: x in pool <==> x in all
    ensures |pool| == |all|
  {
    if pool == [] {
      assert all == {};
    } else {
      var n := |pool| - 1;
      assert pool == pool[..n] + [pool[n]] && pool[n] !in pool[..n];
      SortedSize(pool[..n], all - {pool[n]});
    }
  }

  /** The pool holds the registers left, lowest first. */
  lemma {:induction false} PoolIsLeft(r: Rules, busy: (Instr, Reg) -> bool, s: seq<Instr>, c: Config, b: nat, e: nat)
    requires b <= e <= |s| && ClearsBusy(r, busy)
    ensures var pool := Pool(r, s, Regs(c), b, e);
            Sorted(pool) && (forall x :: x in pool <==> x in LeftBy(s, c, busy, b, e))
            && |pool| == |LeftBy(s, c, busy, b, e)|
    decreases e
  {
    var pool := Pool(r, s, Regs(c), b, e);
    if b < e {
      PoolIsLeft(r, busy, s, c, b, e - 1);
      LeftNext(s, c, busy, b, e);
    } else {
      RegsSorted(c);
      assert forall x | x in pool :: x.X?;
    }
    SortedSize(pool, LeftBy(s, c, busy, b, e));
  }

  /**
    b to e is the block of i: it starts where the one before ends, or at 0, and
    ends as soon as no more than limit registers are left, or with the list.
   */
  ghost predicate BlockAt(s: seq<Instr>, c: Config, busy: (Instr, Reg) -> bool, limit: nat, b: nat, e: nat, i: nat)
    requires i < |s|
  {
    && b <= i < e <= |s|
    && (forall j | b < j < e :: |LeftBy(s, c, busy, b, j)| > limit)
    && (e < |s| ==> |LeftBy(s, c, busy, b, e)| <= limit)
  }

  function StartOf(r: Rules, s: seq<Instr>, c: Config, i: nat): (b: nat)
    ensures b <= i
  {
    Start(Closes(r, s, Regs(c)), i)
  }

  function EndOf(r: Rules, s: seq<Instr>, c: Config, i: nat): (e: nat)
    requires i < |s|
    ensures i < e <= |s|
  {
    End(Closes(r, s, Regs(c)), |s|, i)
  }

  lemma {:induction false} OpenBefore(closes: (nat, nat) -> bool, i: nat, j: nat)
    requires Start(closes, i) < j <= i
    ensures !closes(Start(closes, i), j)
  {
    StartStable(closes, i, j);
    OpenInside(closes, j);
  }

  /** Two neighbours are in one block, or the first ends its block and the second starts the next. */
  ghost predicate Neighbours(r: Rules, s: seq<Instr>, c: Config, i: nat)
    requires i < |s|
  {
    if i == 0 then StartOf(r, s, c, 0) == 0
    else if StartOf(r, s, c, i) == i then EndOf(r, s, c, i - 1) == i
    else StartOf(r, s, c, i - 1) == StartOf(r, s, c, i) && EndOf(r, s, c, i - 1) == EndOf(r, s, c, i)
  }

  /** The pool stays above the limit inside a block and reaches it at its end. */
  lemma {:induction false} BlockPools(r: Rules, s: seq<Instr>, c: Config, i: nat)
    requires i < |s|
    ensures var b, e := StartOf(r, s, c, i), EndOf(r, s, c, i);
            && (forall j | b < j < e :: |Pool(r, s, Regs(c), b, j)| > r.limit)
            && (e < |s| ==> |Pool(r, s, Regs(c), b, e)| <= r.limit)
  {
    var closes := Closes(r, s, Regs(c));
    var b, e := StartOf(r, s, c, i), EndOf(r, s, c, i);
    BlockShape(closes, |s|, i);
    forall j | b < j < e ensures |Pool(r, s, Regs(c), b, j)| > r.limit {
      OpenBefore(closes, e - 1, j);
    }
    if e < |s| {
      assert closes(b, e);
    }
  }

  lemma {:induction false} BlockIs(r: Rules, busy: (Instr, Reg) -> bool, s: seq<Instr>, c: Config, i: nat)
    requires i < |s| && ClearsBusy(r, busy)
    ensures BlockAt(s, c, busy, r.limit, StartOf(r, s, c, i), EndOf(r, s, c, i), i)
  {
    var b, e := StartOf(r, s, c, i), EndOf(r, s, c, i);
    BlockPools(r, s, c, i);
    forall j | b < j < e ensures |LeftBy(s, c, busy, b, j)| > r.limit {
      PoolIsLeft(r, busy, s, c, b, j);
    }
    PoolIsLeft(r, busy, s, c, b, e);
  }

  lemma {:induction false} NeighboursAt(r: Rules, s: seq<Instr>, c: Config, i: nat)
    requires i < |s|
    ensures Neighbours(r, s, c, i)
  {
  }

  /** x is the lowest register of all. */
  ghost predicate Lowest(x: Reg, all: set<Reg>) {
    x in all && forall y | y in all :: x.n <= y.n
  }

  lemma {:induction false} FirstTwo(pool: seq<Reg>, all: set<Reg>)
    requires Sorted(pool) && forall x :: x in pool <==> x in all
    ensures |pool| > 0 ==> Lowest(pool[0], all)
    ensures |pool| > 1 ==> Lowest(pool[1], all - {pool[0]})
  {
    if |pool| > 0 { assert pool[0] in pool; }
    if |pool| > 1 {
      assert pool[1] in pool;
      forall y | y in all - {pool[0]} ensures pool[1].n <= y.n {
        var k :| 0 <= k < |pool| && pool[k] == y;
      }
    }
  }

  /** What a pass does to i: it works on i's block, with the registers left there, at i's place in the block. */
  lemma {:induction false} PassAt(r: Rules, busy: (Instr, Reg) -> bool, s: seq<Instr>, c: Config, drop: nat,
                                  avoids: Instr -> seq<Option<Reg>>, i: nat)
    returns (pool: seq<Reg>)
    requires i < |s| && ClearsBusy(r, busy) && Lawful(r, s, Regs(c), drop, avoids)
    ensures BlockAt(s, c, busy, r.limit, StartOf(r, s, c, i), EndOf(r, s, c, i), i) && Neighbours(r, s, c, i)
    ensures Results(r, s, Regs(c))[i] == r.put(s[i], pool, i - StartOf(r, s, c, i))
    ensures var left := LeftBy(s, c, busy, StartOf(r, s, c, i), EndOf(r, s, c, i));
            |pool| > r.limit - drop && (|pool| > 0 ==> Lowest(pool[0], left))
            && (|pool| > 1 ==> Lowest(pool[1], left - {pool[0]}))
  {
    var b, e := StartOf(r, s, c, i), EndOf(r, s, c, i);
    BlockIs(r, busy, s, c, i);
    NeighboursAt(r, s, c, i);
    PoolIsLeft(r, busy, s, c, b, e);
    var k;
    pool, k := Pick(r, s, Regs(c), drop, avoids, i);
    FirstTwo(pool, LeftBy(s, c, busy, b, e));
  }

  lemma {:induction false} SameStart(r: Rules, s: seq<Instr>, c: Config, i: nat)
    requires 0 < i < |s| && StartOf(r, s, c, i) != i
    ensures StartOf(r, s, c, i - 1) == StartOf(r, s, c, i)
  {
  }

  lemma {:induction false} OffsetRule(prev: nat, now: nat, stride: nat, size: nat, b: nat, i: nat)
    requires b <= i && now == Wrapped(stride, size, i - b) && (b < i ==> prev == Wrapped(stride, size, i - 1 - b))
    ensures now == if i == b || (prev + stride) * size > 2047 then 0 else prev + stride
  {
  }

  // ---------------------------------------------------------------------
  // swreg
  // ---------------------------------------------------------------------

  lemma {:induction false} SwOffset(s: seq<Instr>, c: Config, i: nat, b: nat)
    requires i < |s| && Fresh(s, c) && b == StartOf(SwRules(c), s, c, i)
    ensures AfterSw(s, c)[i].offset == Wrapped(c.sigStride, c.sigSize, i - b)
  {
    SwLawful(s, c);
    var pool, k := Pick(SwRules(c), s, Regs(c), Room(c), SwAvoids, i);
  }

  lemma {:induction false} SwOffsetIn(s: seq<Instr>, c: Config, i: nat, b: nat, t: seq<Instr>)
    requires i < |s| && Fresh(s, c) && b == StartOf(SwRules(c), s, c, i) && t == AfterSw(s, c)
    ensures t[i].offset
            == if i == b || (t[i - 1].offset + c.sigStride) * c.sigSize > 2047 then 0
               else t[i - 1].offset + c.sigStride
  {
    var prev, now := if i == 0 then 0 else t[i - 1].offset, t[i].offset;
    assert now == Wrapped(c.sigStride, c.sigSize, i - b) by {
      SwOffset(s, c, i, b);
    }
    assert b < i ==> prev == Wrapped(c.sigStride, c.sigSize, i - 1 - b) by {
      if b < i {
        SameStart(SwRules(c), s, c, i);
        SwOffset(s, c, i - 1, b);
      }
    }
    OffsetRule(prev, now, c.sigStride, c.sigSize, b, i);
  }

  /** The offset of i: 0 where its block starts, else one stride on, but back to 0 past 2047 bytes. */
  lemma {:induction false} SwOffsetIs(s: seq<Instr>, c: Config, i: nat)
    requires i < |s| && Fresh(s, c)
    ensures var t := AfterSw(s, c);
            t[i].offset
            == if i == StartOf(SwRules(c), s, c, i) || (t[i - 1].offset + c.sigStride) * c.sigSize > 2047 then 0
               else t[i - 1].offset + c.sigStride
  {
    SwOffsetIn(s, c, i, StartOf(SwRules(c), s, c, i), AfterSw(s, c));
  }

  /** The block of i, and the lowest register left there as its pointer. */
  lemma {:induction false} SwregIs(s: seq<Instr>, c: Config, i: nat)
    requires i < |s| && Fresh(s, c)
    ensures var t, b, e := AfterSw(s, c), StartOf(SwRules(c), s, c, i), EndOf(SwRules(c), s, c, i);
            && BlockAt(s, c, Busy, 2 + c.numOps + c.paired, b, e, i) && Neighbours(SwRules(c), s, c, i)
            && t[i].swreg.Some? && Lowest(t[i].swreg.value, LeftBy(s, c, Busy, b, e))
  {
    SwClearsBusy(c);
    SwLawful(s, c);
    var pool := PassAt(SwRules(c), Busy, s, c, Room(c), SwAvoids, i);
  }

  // ---------------------------------------------------------------------
  // valreg
  // ---------------------------------------------------------------------

  lemma {:induction false} ValOffset(s: seq<Instr>, c: Config, i: nat, b: nat)
    requires i < |s| && ValReady(s, c) && b == StartOf(ValRules(c), s, c, i)
    ensures Results(ValRules(c), s, Regs(c))[i].valOffset == Wrapped(c.valStride, c.valSize, i - b)
  {
    ValLawful(s, c);
    var pool, k := Pick(ValRules(c), s, Regs(c), Room(c) + 2, ValAvoids, i);
  }

  lemma {:induction false} ValOffsetIn(s: seq<Instr>, c: Config, i: nat, b: nat, t: seq<Instr>)
    requires i < |s| && ValReady(s, c) && b == StartOf(ValRules(c), s, c, i) && t == Results(ValRules(c), s, Regs(c))
    ensures t[i].valOffset
            == if i == b || (t[i - 1].valOffset + c.valStride) * c.valSize > 2047 then 0
               else t[i - 1].valOffset + c.valStride
  {
    var prev, now := if i == 0 then 0 else t[i - 1].valOffset, t[i].valOffset;
    assert now == Wrapped(c.valStride, c.valSize, i - b) by {
      ValOffset(s, c, i, b);
    }
    assert b < i ==> prev == Wrapped(c.valStride, c.valSize, i - 1 - b) by {
      if b < i {
        SameStart(ValRules(c), s, c, i);
        ValOffset(s, c, i - 1, b);
      }
    }
    OffsetRule(prev, now, c.valStride, c.valSize, b, i);
  }

  lemma {:induction false} ValOffsetIs(s: seq<Instr>, c: Config, i: nat)
    requires i < |s| && ValReady(s, c)
    ensures var t := Results(ValRules(c), s, Regs(c));
            t[i].valOffset
            == if i == StartOf(ValRules(c), s, c, i) || (t[i - 1].valOffset + c.valStride) * c.valSize > 2047 then 0
               else t[i - 1].valOffset + c.valStride
  {
    ValOffsetIn(s, c, i, StartOf(ValRules(c), s, c, i), Results(ValRules(c), s, Regs(c)));
  }

  /** The block of i, the lowest register left there as data pointer, and the next lowest as flag register. */
  lemma {:induction false} ValregIs(s: seq<Instr>, c: Config, i: nat)
    requires i < |s| && ValReady(s, c)
    ensures var t := Results(ValRules(c), s, Regs(c));
            var b, e := StartOf(ValRules(c), s, c, i), EndOf(ValRules(c), s, c, i);
            && BlockAt(s, c, BusyForData, 3 + c.numOps + c.paired, b, e, i) && Neighbours(ValRules(c), s, c, i)
            && t[i].valReg.Some? && Lowest(t[i].valReg.value, LeftBy(s, c, BusyForData, b, e))
            && if c.isFext && c.numVars > 0 then
                 t[i].flagreg.Some?
                 && Lowest(t[i].flagreg.value, LeftBy(s, c, BusyForData, b, e) - {t[i].valReg.value})
               else t[i].flagreg == s[i].flagreg
  {
    ValClearsBusy(c);
    ValLawful(s, c);
    var pool := PassAt(ValRules(c), BusyForData, s, c, Room(c) + 2, ValAvoids, i);
  }

  // ---------------------------------------------------------------------
  // testreg
  // ---------------------------------------------------------------------

  /** What the block of testreg from b has spared up to e. */
  ghost function Survivors(s: seq<Instr>, c: Config, b: nat, e: nat): set<Reg>
    requires b <= e <= |s|
  {
    set n: nat | 1 <= n <= c.numRegs && Survives(s, c, b, e, X(n)) :: X(n)
  }

  lemma {:induction false} SurvivorCount(s: seq<Instr>, c: Config, b: nat, e: nat)
    requires b <= e <= |s|
    ensures |TestPool(s, c, b, e)| == |Survivors(s, c, b, e)|
  {
    var pool := TestPool(s, c, b, e);
    PoolIsSurvivors(s, c, b, e);
    RegsSorted(c);
    forall x ensures x in pool <==> x in Survivors(s, c, b, e) {
      if x in pool {
        assert Survives(s, c, b, e, x) && x in Regs(c) && x.X?;
        assert X(x.n) in Regs(c);
      }
    }
    SortedSize(pool, Survivors(s, c, b, e));
  }

  /** A block of testreg ends as soon as no more than two registers and an instruction's room are spared. */
  lemma {:induction false} TestBlockIs(s: seq<Instr>, c: Config, i: nat)
    requires i < |s|
    ensures var b, e := StartOf(TestRules(c), s, c, i), EndOf(TestRules(c), s, c, i);
            && TestBlock(s, c, i) == (b, e) && Neighbours(TestRules(c), s, c, i)
            && (forall j | b < j < e :: |Survivors(s, c, b, j)| > 2 + c.numOps + c.paired)
            && (e < |s| ==> |Survivors(s, c, b, e)| <= 2 + c.numOps + c.paired)
  {
    var b, e := StartOf(TestRules(c), s, c, i), EndOf(TestRules(c), s, c, i);
    BlockPools(TestRules(c), s, c, i);
    NeighboursAt(TestRules(c), s, c, i);
    forall j | b < j < e ensures |Survivors(s, c, b, j)| > 2 + c.numOps + c.paired {
      SurvivorCount(s, c, b, j);
    }
    SurvivorCount(s, c, b, e);
  }
}
