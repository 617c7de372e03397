/** The three passes of riscv_ctg/generator.py as rules for the common loop, and what they guarantee together. */
module RegisterPasses {
  import opened Wrappers
  import opened RegisterAllocation

  /** The register set without x0. */
  function Regs(c: Config): seq<Reg> {
    seq(c.numRegs, i requires 0 <= i < c.numRegs => X(i + 1))
  }

  /** The slot of the k-th instruction of a block: one stride further each time, back to 0 past 2047 bytes. */
  function Wrapped(stride: nat, size: nat, k: nat): nat {
    if k == 0 then 0
    else
      var o := Wrapped(stride, size, k - 1) + stride;
      if o * size > 2047 then 0 else o
  }

  /** The most registers an instruction's operands and pair halves can be. */
  function Room(c: Config): nat {
    c.numOps + c.paired
  }

  ghost predicate Fits(i: Instr, c: Config) {
    Present(Operands(i)) <= Room(c)
  }

  function SwRules(c: Config): Rules {
    Rules(ClearSw, 2 + Room(c),
          (i: Instr, pool: seq<Reg>, k: nat) =>
            if pool == [] then i else i.(swreg := Some(pool[0]), offset := Wrapped(c.sigStride, c.sigSize, k)),
          (i: Instr) => i.swreg.Some?)
  }

  function TestRules(c: Config): Rules {
    Rules(ClearTest, 2 + Room(c),
          (i: Instr, pool: seq<Reg>, k: nat) => if pool == [] then i else i.(testreg := Some(pool[0])),
          (i: Instr) => i.testreg.Some?)
  }

  function ValRules(c: Config): Rules {
    Rules(ClearVal, 3 + Room(c),
          (i: Instr, pool: seq<Reg>, k: nat) =>
            if |pool| < 2 then i
            else i.(valReg := Some(pool[0]), valOffset := Wrapped(c.valStride, c.valSize, k),
                    flagreg := if c.isFext && c.numVars > 0 then Some(pool[1]) else i.flagreg),
          (i: Instr) => i.valReg.Some?)
  }

  const SwAvoids: Instr -> seq<Option<Reg>> := (i: Instr) => Operands(i)
  const TestAvoids: Instr -> seq<Option<Reg>> := (i: Instr) => [i.rs1, i.rs2, i.rd, i.swreg]
  const ValAvoids: Instr -> seq<Option<Reg>> := (i: Instr) => Operands(i) + [i.swreg, i.testreg]

  /** A list as gen_inst leaves it: no pointers yet, and no more registers per instruction than the format has. */
  ghost predicate Fresh(s: seq<Instr>, c: Config) {
    && Room(c) + 3 < c.numRegs
    && forall i | 0 <= i < |s| ::
         Fits(s[i], c) && s[i].swreg.None? && s[i].testreg.None? && s[i].valReg.None? && s[i].flagreg.None?
  }

  lemma {:induction false} RegsFacts(c: Config)
    ensures NoDup(Regs(c)) && |Regs(c)| == c.numRegs && X(0) !in Regs(c)
  {
  }

  lemma {:induction false} SwClears(pool: seq<Reg>, i: Instr, c: Config)
    requires NoDup(pool) && Fits(i, c) && i.testreg.None?
    ensures ClearsWell(pool, ClearSw(pool, i), Room(c), Operands(i))
  {
    var rs := Operands(i) + [i.testreg];
    WithoutAllGone(pool, rs);
    PresentOperands(i, [i.testreg]);
    PresentOperands(i, []);
    assert Operands(i) + [] == Operands(i);
    assert forall r | r in Operands(i) :: r in rs;
  }

  lemma {:induction false} TestClears(pool: seq<Reg>, i: Instr, c: Config)
    requires NoDup(pool) && Fits(i, c)
    ensures ClearsWell(pool, ClearTest(pool, i), Room(c) + 1, [i.rs1, i.rs2, i.rd, i.swreg])
  {
    PresentOperands(i, []);
    assert Operands(i) + [] == Operands(i);
    var s1 := WithoutPair(pool, i.rs1, i.rs1Hi);
    var s2 := WithoutPair(s1, i.rs2, i.rs2Hi);
    var s3 := WithoutPair(s2, i.rd, i.rdHi);
    WithoutPairGone(pool, i.rs1, i.rs1Hi);
    WithoutPairGone(s1, i.rs2, i.rs2Hi);
    WithoutPairGone(s2, i.rd, i.rdHi);
    WithoutGone(s3, i.swreg);
  }

  lemma {:induction false} ValClears(pool: seq<Reg>, i: Instr, c: Config)
    requires NoDup(pool) && Fits(i, c)
    ensures ClearsWell(pool, ClearVal(pool, i), Room(c) + 2, Operands(i) + [i.swreg, i.testreg])
  {
    WithoutAllGone(pool, Operands(i) + [i.swreg, i.testreg]);
    PresentOperands(i, [i.swreg, i.testreg]);
    PresentOperands(i, []);
    PresentCons(i.swreg, [i.testreg]);
    assert Operands(i) + [] == Operands(i) && [i.swreg, i.testreg] == [i.swreg] + [i.testreg];
  }

  lemma {:induction false} SwLawful(s: seq<Instr>, c: Config)
    requires Fresh(s, c)
    ensures Lawful(SwRules(c), s, Regs(c), Room(c), SwAvoids)
  {
    RegsFacts(c);
    forall i, pool | 0 <= i < |s| && NoDup(pool)
      ensures ClearsWell(pool, ClearSw(pool, s[i]), Room(c), SwAvoids(s[i]))
    {
      SwClears(pool, s[i], c);
    }
  }

  lemma {:induction false} TestLawful(s: seq<Instr>, c: Config)
    requires Room(c) + 3 < c.numRegs && forall i | 0 <= i < |s| :: Fits(s[i], c) && s[i].testreg.None?
    ensures Lawful(TestRules(c), s, Regs(c), Room(c) + 1, TestAvoids)
  {
    RegsFacts(c);
    forall i, pool | 0 <= i < |s| && NoDup(pool)
      ensures ClearsWell(pool, ClearTest(pool, s[i]), Room(c) + 1, TestAvoids(s[i]))
    {
      TestClears(pool, s[i], c);
    }
  }

  lemma {:induction false} ValLawful(s: seq<Instr>, c: Config)
    requires Room(c) + 3 < c.numRegs && forall i | 0 <= i < |s| :: Fits(s[i], c) && s[i].valReg.None?
    ensures Lawful(ValRules(c), s, Regs(c), Room(c) + 2, ValAvoids)
  {
    RegsFacts(c);
    forall i, pool | 0 <= i < |s| && NoDup(pool)
      ensures ClearsWell(pool, ClearVal(pool, s[i]), Room(c) + 2, ValAvoids(s[i]))
    {
      ValClears(pool, s[i], c);
    }
  }

  /** The pools never run dry: at least three registers at each swreg choice, two at each of the other choices. */
  lemma {:induction false} PoolsNeverRunDry(s: seq<Instr>, c: Config, i: nat)
    requires i < |s| && Room(c) + 3 < c.numRegs && Fits(s[i], c)
    requires forall j | 0 <= j < |s| :: Fits(s[j], c)
    ensures Fresh(s, c) ==> |BlockPool(SwRules(c), s, Regs(c), i)| >= 3
    ensures (forall j | 0 <= j < |s| :: s[j].testreg.None?) ==> |BlockPool(TestRules(c), s, Regs(c), i)| >= 2
    ensures (forall j | 0 <= j < |s| :: s[j].valReg.None?) ==> |BlockPool(ValRules(c), s, Regs(c), i)| >= 2
  {
    if Fresh(s, c) {
      SwLawful(s, c);
      PoolNeverRunsDry(SwRules(c), s, Regs(c), Room(c), SwAvoids, i);
    }
    if forall j | 0 <= j < |s| :: s[j].testreg.None? {
      TestLawful(s, c);
      PoolNeverRunsDry(TestRules(c), s, Regs(c), Room(c) + 1, TestAvoids, i);
    }
    if forall j | 0 <= j < |s| :: s[j].valReg.None? {
      ValLawful(s, c);
      PoolNeverRunsDry(ValRules(c), s, Regs(c), Room(c) + 2, ValAvoids, i);
    }
  }

  /** Any register of a block's pool avoids what each instruction of the block uses. */
  lemma {:induction false} BlockRegister(r: Rules, s: seq<Instr>, regs: seq<Reg>, drop: nat,
                                         avoids: Instr -> seq<Option<Reg>>, i: nat, x: Reg)
    requires i < |s| && Lawful(r, s, regs, drop, avoids) && x in BlockPool(r, s, regs, i)
    ensures Some(x) !in avoids(s[i]) && x in regs
  {
    var closes := Closes(r, s, regs);
    PoolAvoids(r, s, regs, drop, avoids, Start(closes, i), End(closes, |s|, i), i, x);
    PoolFacts(r, s, regs, drop, avoids, Start(closes, i), End(closes, |s|, i));
  }

  /** Next to each other in a list, two instructions are in one block, or the second opens a new one. */
  lemma {:induction false} BlockNext(r: Rules, s: seq<Instr>, regs: seq<Reg>, i: nat)
    requires 0 < i < |s|
    ensures var closes := Closes(r, s, regs);
            Start(closes, i) == i
            || (Start(closes, i) == Start(closes, i - 1) && BlockPool(r, s, regs, i) == BlockPool(r, s, regs, i - 1))
  {
  }

  /** The instruction list after swreg, testreg and valreg, in the order ctg.py runs them. */
  function AfterSw(s: seq<Instr>, c: Config): seq<Instr> { Results(SwRules(c), s, Regs(c)) }
  function AfterTest(s: seq<Instr>, c: Config): seq<Instr> { Results(TestRules(c), AfterSw(s, c), Regs(c)) }
  function AfterVal(s: seq<Instr>, c: Config): seq<Instr> {
    if c.hasVal then Results(ValRules(c), AfterTest(s, c), Regs(c)) else AfterTest(s, c)
  }

  /** Slots run on with the same pointer, or start over. */
  ghost predicate RunsOn(before: Option<Reg>, from: nat, after: Option<Reg>, to: nat, stride: nat) {
    to == 0 || (after == before && to == from + stride)
  }

  /**
    What a pass wrote into instruction i: registers of some pool that avoids what i
    uses, for some place in a block.
   */
  lemma {:induction false} Pick(r: Rules, s: seq<Instr>, regs: seq<Reg>, drop: nat, avoids: Instr -> seq<Option<Reg>>,
                                i: nat)
    returns (pool: seq<Reg>, k: nat)
    requires i < |s| && Lawful(r, s, regs, drop, avoids)
    ensures pool == BlockPool(r, s, regs, i) && k == i - Start(Closes(r, s, regs), i)
    ensures Results(r, s, regs)[i] == r.put(s[i], pool, k) && (i == 0 ==> k == 0)
    ensures |pool| > r.limit - drop && NoDup(pool) && forall x | x in pool :: Some(x) !in avoids(s[i]) && x in regs
  {
    var closes := Closes(r, s, regs);
    pool, k := BlockPool(r, s, regs, i), i - Start(closes, i);
    PoolNeverRunsDry(r, s, regs, drop, avoids, i);
    PoolFacts(r, s, regs, drop, avoids, Start(closes, i), End(closes, |s|, i));
    forall x | x in pool ensures Some(x) !in avoids(s[i]) && x in regs {
      BlockRegister(r, s, regs, drop, avoids, i, x);
    }
  }

  /** The same for two neighbours: one block, or the second opens a new one. */
  lemma {:induction false} PickTwo(r: Rules, s: seq<Instr>, regs: seq<Reg>, drop: nat,
                                   avoids: Instr -> seq<Option<Reg>>, i: nat)
    returns (pool: seq<Reg>, k: nat, pool': seq<Reg>, k': nat)
    requires 0 < i < |s| && Lawful(r, s, regs, drop, avoids)
    ensures Results(r, s, regs)[i - 1] == r.put(s[i - 1], pool, k) && Results(r, s, regs)[i] == r.put(s[i], pool', k')
    ensures |pool| > r.limit - drop && |pool'| > r.limit - drop && (k' == 0 || (k' == k + 1 && pool' == pool))
  {
    pool, k := Pick(r, s, regs, drop, avoids, i - 1);
    pool', k' := Pick(r, s, regs, drop, avoids, i);
    BlockNext(r, s, regs, i);
  }

  lemma {:induction false} SwPick(s: seq<Instr>, c: Config, i: nat)
    requires i < |s| && Fresh(s, c)
    ensures var t := AfterSw(s, c)[i];
            && t == s[i].(swreg := t.swreg, offset := t.offset) && (i == 0 ==> t.offset == 0)
            && t.swreg.Some? && t.swreg !in Operands(s[i]) && t.swreg.value in Regs(c)
  {
    SwLawful(s, c);
    var pool, k := Pick(SwRules(c), s, Regs(c), Room(c), SwAvoids, i);
    assert pool[0] in pool;
  }

  lemma {:induction false} WrappedNext(stride: nat, size: nat, k: nat)
    ensures Wrapped(stride, size, k + 1) == 0 || Wrapped(stride, size, k + 1) == Wrapped(stride, size, k) + stride
  {
  }

  lemma {:induction false} WrappedBound(stride: nat, size: nat, k: nat)
    ensures Wrapped(stride, size, k) * size <= 2047
  {
  }

  /** No slot starts past 2047 bytes. */
  lemma {:induction false} SwBound(s: seq<Instr>, c: Config, i: nat)
    requires i < |s| && Fresh(s, c)
    ensures AfterSw(s, c)[i].offset * c.sigSize <= 2047
  {
    SwLawful(s, c);
    var pool, k := Pick(SwRules(c), s, Regs(c), Room(c), SwAvoids, i);
    WrappedBound(c.sigStride, c.sigSize, k);
  }

  lemma {:induction false} SwRunsOn(s: seq<Instr>, c: Config, i: nat)
    requires 0 < i < |s| && Fresh(s, c)
    ensures var t := AfterSw(s, c); RunsOn(t[i - 1].swreg, t[i - 1].offset, t[i].swreg, t[i].offset, c.sigStride)
  {
    SwLawful(s, c);
    var pool, k, pool', k' := PickTwo(SwRules(c), s, Regs(c), Room(c), SwAvoids, i);
    WrappedNext(c.sigStride, c.sigSize, k);
  }

  lemma {:induction false} TestPick(s: seq<Instr>, c: Config, i: nat)
    requires i < |s| && Room(c) + 3 < c.numRegs && forall j | 0 <= j < |s| :: Fits(s[j], c) && s[j].testreg.None?
    ensures var t := Results(TestRules(c), s, Regs(c))[i];
            && t == s[i].(testreg := t.testreg)
            && t.testreg.Some? && t.testreg !in [s[i].rs1, s[i].rs2, s[i].rd, s[i].swreg] && t.testreg.value in Regs(c)
  {
    TestLawful(s, c);
    var pool, k := Pick(TestRules(c), s, Regs(c), Room(c) + 1, TestAvoids, i);
    assert pool[0] in pool;
  }

  ghost predicate ValReady(s: seq<Instr>, c: Config) {
    Room(c) + 3 < c.numRegs && forall j | 0 <= j < |s| :: Fits(s[j], c) && s[j].valReg.None?
  }

  lemma {:induction false} ValPick(s: seq<Instr>, c: Config, i: nat)
    requires i < |s| && ValReady(s, c)
    ensures var t := Results(ValRules(c), s, Regs(c))[i];
            && t == s[i].(valReg := t.valReg, valOffset := t.valOffset, flagreg := t.flagreg)
                  && (i == 0 ==> t.valOffset == 0)
            && t.valReg.Some? && t.valReg !in Operands(s[i]) + [s[i].swreg, s[i].testreg] && t.valReg.value in Regs(c)
            && (t.flagreg == s[i].flagreg
                || (t.flagreg != t.valReg && t.flagreg !in Operands(s[i]) + [s[i].swreg, s[i].testreg]))
  {
    ValLawful(s, c);
    var pool, k := Pick(ValRules(c), s, Regs(c), Room(c) + 2, ValAvoids, i);
    assert pool[0] in pool && pool[1] in pool;
  }

  lemma {:induction false} ValRunsOn(s: seq<Instr>, c: Config, i: nat)
    requires 0 < i < |s| && ValReady(s, c)
    ensures var t := Results(ValRules(c), s, Regs(c));
            RunsOn(t[i - 1].valReg, t[i - 1].valOffset, t[i].valReg, t[i].valOffset, c.valStride)
  {
    ValLawful(s, c);
    var pool, k, pool', k' := PickTwo(ValRules(c), s, Regs(c), Room(c) + 2, ValAvoids, i);
    var t := Results(ValRules(c), s, Regs(c));
    assert t[i - 1].valReg == Some(pool[0]) && t[i - 1].valOffset == Wrapped(c.valStride, c.valSize, k);
    assert t[i].valReg == Some(pool'[0]) && t[i].valOffset == Wrapped(c.valStride, c.valSize, k');
    WrappedNext(c.valStride, c.valSize, k);
  }

  /** The three passes, in place. */
  method AllocateAll(a: array<Instr>, c: Config)
    requires Fresh(a[..], c)
    modifies a
    ensures a[..] == AfterVal(old(a[..]), c)
  {
    ghost var s := a[..];
    Allocate(SwRules(c), a, Regs(c));
    forall i | 0 <= i < a.Length ensures !TestRules(c).done(a[i]) && a[i].valReg.None? {
      assert a[i] == a[..][i];
      SwPick(s, c, i);
    }
    ghost var s1 := a[..];
    Allocate(TestRules(c), a, Regs(c));
    if c.hasVal {
      forall i | 0 <= i < a.Length ensures !ValRules(c).done(a[i]) {
        assert a[i] == a[..][i] && s1[i].valReg.None?;
        AfterSwFits(s, c);
        TestPick(s1, c, i);
      }
      Allocate(ValRules(c), a, Regs(c));
    }
  }

  lemma {:induction false} AfterSwFits(s: seq<Instr>, c: Config)
    requires Fresh(s, c)
    ensures forall i | 0 <= i < |s| :: Operands(AfterSw(s, c)[i]) == Operands(s[i])
    ensures forall i | 0 <= i < |s| ::
              Fits(AfterSw(s, c)[i], c) && AfterSw(s, c)[i].testreg.None? && AfterSw(s, c)[i].valReg.None?
  {
  }

  lemma {:induction false} AfterTestFits(s: seq<Instr>, c: Config)
    requires Fresh(s, c)
    ensures forall i | 0 <= i < |s| :: Operands(AfterTest(s, c)[i]) == Operands(s[i])
    ensures forall i | 0 <= i < |s| :: Fits(AfterTest(s, c)[i], c) && AfterTest(s, c)[i].valReg.None?
  {
    AfterSwFits(s, c);
    forall i | 0 <= i < |s|
      ensures Operands(AfterTest(s, c)[i]) == Operands(s[i])
      ensures Fits(AfterTest(s, c)[i], c) && AfterTest(s, c)[i].valReg.None?
    {
      TestPick(AfterSw(s, c), c, i);
    }
  }
}
