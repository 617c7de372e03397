/**
  The register passes of riscv_ctg/generator.py: `swreg` picks the signature
  pointer of each instruction, `testreg` its scratch register and `valreg` its
  data pointer (and flag register).

  The three run the same loop over the instruction list: registers in use leave
  a pool, and when the pool gets small its first register serves every
  instruction since the last choice.  They differ in what leaves the pool, in
  how small it may get and in which fields they write.
 */
module RegisterAllocation {
  import opened Wrappers

  datatype Reg = X(n: nat) | F(n: nat)

  /** The operand fields of an instruction dictionary, and those the passes add. */
  datatype Instr = Instr(
    rs1: Option<Reg>, rs2: Option<Reg>, rd: Option<Reg>,
    rs1Hi: Option<Reg>, rs2Hi: Option<Reg>, rdHi: Option<Reg>,
    swreg: Option<Reg>, offset: nat,
    testreg: Option<Reg>,
    valReg: Option<Reg>, valOffset: nat, flagreg: Option<Reg>)

    /** numOps is len(op_vars), paired the number of 'p' in the pair profile; a size is the unit of the wrap test. */
  datatype Config = Config(numRegs: nat, numOps: nat, paired: nat,
                           sigStride: nat, sigSize: nat,
                           hasVal: bool, valStride: nat, valSize: nat, numVars: nat, isFext: bool)

  // ---------------------------------------------------------------------
  // Pools
  // ---------------------------------------------------------------------

  ghost predicate NoDup(s: seq<Reg>) {
    forall i, j | 0 <= i < j < |s| :: s[i] != s[j]
  }

  /** `if r in available_reg: available_reg.remove(r)`. */
  function Without(s: seq<Reg>, r: Option<Reg>): seq<Reg> {
    if s == [] then []
    else if Some(s[0]) == r then s[1..]
    else [s[0]] + Without(s[1..], r)
  }

  lemma {:induction false} WithoutSubset(s: seq<Reg>, r: Option<Reg>)
    ensures forall x | x in Without(s, r) :: x in s
    ensures |s| - Present([r]) <= |Without(s, r)| <= |s|
  {
    if s != [] {
      WithoutSubset(s[1..], r);
      assert forall x :: x in s <==> x == s[0] || x in s[1..];
    }
  }

  lemma {:induction false} WithoutGone(s: seq<Reg>, r: Option<Reg>)
    requires NoDup(s)
    ensures NoDup(Without(s, r)) && forall x | x in Without(s, r) :: Some(x) != r && x in s
    ensures |s| - Present([r]) <= |Without(s, r)| <= |s|
  {
    WithoutSubset(s, r);
    if s != [] {
      NoDupTail(s);
      if Some(s[0]) != r {
        WithoutSubset(s[1..], r);
        WithoutGone(s[1..], r);
        var t := Without(s[1..], r);
        assert s[0] !in t;
        NoDupCons(s[0], t);
      }
    }
  }

  lemma {:induction false} NoDupTail(s: seq<Reg>)
    requires NoDup(s) && s != []
    ensures NoDup(s[1..]) && s[0] !in s[1..]
  {
    var t := s[1..];
    forall i, j | 0 <= i < j < |t| ensures t[i] != t[j] {
      assert s[i + 1] != s[j + 1];
    }
  }

  lemma {:induction false} NoDupCons(x: Reg, t: seq<Reg>)
    requires NoDup(t) && x !in t
    ensures NoDup([x] + t)
  {
  }

  /** Removes each of a list of registers in turn. */
  function WithoutAll(s: seq<Reg>, rs: seq<Option<Reg>>): seq<Reg>
    decreases |rs|
  {
    if rs == [] then s else WithoutAll(Without(s, rs[0]), rs[1..])
  }

  function Present(rs: seq<Option<Reg>>): nat
    decreases |rs|
  {
    if rs == [] then 0 else (if rs[0].Some? then 1 else 0) + Present(rs[1..])
  }

  lemma {:induction false} WithoutAllGone(s: seq<Reg>, rs: seq<Option<Reg>>)
    requires NoDup(s)
    ensures NoDup(WithoutAll(s, rs)) && forall x | x in WithoutAll(s, rs) :: Some(x) !in rs && x in s
    ensures |s| - Present(rs) <= |WithoutAll(s, rs)| <= |s|
    decreases |rs|
  {
    if rs != [] {
      WithoutGone(s, rs[0]);
      assert [rs[0]][1..] == [];
      WithoutAllGone(Without(s, rs[0]), rs[1..]);
      assert forall r :: r in rs <==> r == rs[0] || r in rs[1..];
    }
  }

  function Operands(i: Instr): seq<Option<Reg>> {
    [i.rs1, i.rs2, i.rd, i.rs1Hi, i.rs2Hi, i.rdHi]
  }

  /** testreg looks at a pair's upper half only when its lower half was still in the pool. */
  function WithoutPair(s: seq<Reg>, r: Option<Reg>, hi: Option<Reg>): seq<Reg> {
    if r.Some? && r.value in s then Without(Without(s, r), hi) else s
  }

  /** What one instruction takes out of the pool, in each of the three passes. */
  function ClearSw(pool: seq<Reg>, i: Instr): seq<Reg> {
    WithoutAll(pool, Operands(i) + [i.testreg])
  }

  function ClearTest(pool: seq<Reg>, i: Instr): seq<Reg> {
    var s1 := WithoutPair(pool, i.rs1, i.rs1Hi);
    var s2 := WithoutPair(s1, i.rs2, i.rs2Hi);
    var s3 := WithoutPair(s2, i.rd, i.rdHi);
    Without(s3, i.swreg)
  }

  function ClearVal(pool: seq<Reg>, i: Instr): seq<Reg> {
    WithoutAll(pool, Operands(i) + [i.swreg, i.testreg])
  }

  lemma {:induction false} WithoutPairGone(s: seq<Reg>, r: Option<Reg>, hi: Option<Reg>)
    requires NoDup(s)
    ensures NoDup(WithoutPair(s, r, hi)) && forall x | x in WithoutPair(s, r, hi) :: Some(x) != r && x in s
    ensures |s| - Present([r, hi]) <= |WithoutPair(s, r, hi)|
  {
    WithoutGone(s, r);
    WithoutGone(Without(s, r), hi);
    PresentCons(r, [hi]);
    assert [r, hi] == [r] + [hi];
  }

  lemma {:induction false} PresentCons(r: Option<Reg>, rs: seq<Option<Reg>>)
    ensures Present([r] + rs) == Present([r]) + Present(rs)
  {
    assert ([r] + rs)[1..] == rs && [r][1..] == [];
  }

  lemma {:induction false} PresentOperands(i: Instr, rest: seq<Option<Reg>>)
    ensures Present(Operands(i) + rest)
         == Present([i.rs1, i.rs1Hi]) + Present([i.rs2, i.rs2Hi]) + Present([i.rd, i.rdHi]) + Present(rest)
  {
    var r5 := [i.rdHi] + rest;
    var r4 := [i.rs2Hi] + r5;
    var r3 := [i.rs1Hi] + r4;
    var r2 := [i.rd] + r3;
    var r1 := [i.rs2] + r2;
    assert Operands(i) + rest == [i.rs1] + r1;
    PresentCons(i.rs1, r1); PresentCons(i.rs2, r2); PresentCons(i.rd, r3);
    PresentCons(i.rs1Hi, r4); PresentCons(i.rs2Hi, r5); PresentCons(i.rdHi, rest);
    PresentCons(i.rs1, [i.rs1Hi]); PresentCons(i.rs2, [i.rs2Hi]); PresentCons(i.rd, [i.rdHi]);
    assert [i.rs1, i.rs1Hi] == [i.rs1] + [i.rs1Hi] && [i.rs2, i.rs2Hi] == [i.rs2] + [i.rs2Hi]
           && [i.rd, i.rdHi] == [i.rd] + [i.rdHi];
  }

  // ---------------------------------------------------------------------
  // Blocks
  // ---------------------------------------------------------------------

  /** A pass: what leaves the pool, how small the pool may get, what is written and when it already was. */
  datatype Rules = Rules(clear: (seq<Reg>, Instr) -> seq<Reg>, limit: nat,
                         put: (Instr, seq<Reg>, nat) -> Instr, done: Instr -> bool)

  /** What is left of the pool after instructions b to e. */
  function Pool(r: Rules, s: seq<Instr>, regs: seq<Reg>, b: nat, e: nat): seq<Reg>
    requires b <= e <= |s|
    decreases e
  {
    if b == e then regs else r.clear(Pool(r, s, regs, b, e - 1), s[e - 1])
  }

  /** Whether the pool calls for a choice after instructions b to e. */
  function Closes(r: Rules, s: seq<Instr>, regs: seq<Reg>): (nat, nat) -> bool {
    (b: nat, e: nat) => b <= e <= |s| && |Pool(r, s, regs, b, e)| <= r.limit
  }

  /** The first instruction of the block that instruction i belongs to, or would start or extend. */
  function Start(closes: (nat, nat) -> bool, i: nat): (b: nat)
    ensures b <= i
  {
    if i == 0 then 0
    else
      var b := Start(closes, i - 1);
      if closes(b, i) then i else b
  }

  /** One past the last instruction of i's block, in a list of n. */
  function End(closes: (nat, nat) -> bool, n: nat, i: nat): (e: nat)
    requires i < n
    ensures i < e <= n
    decreases n - i
  {
    if i + 1 == n || Start(closes, i + 1) == i + 1 then i + 1 else End(closes, n, i + 1)
  }

  /** The pool from which i's block takes its registers. */
  function BlockPool(r: Rules, s: seq<Instr>, regs: seq<Reg>, i: nat): seq<Reg>
    requires i < |s|
  {
    Pool(r, s, regs, Start(Closes(r, s, regs), i), End(Closes(r, s, regs), |s|, i))
  }

  /** What the pass makes of instruction i: its block's registers, and its place in the block. */
  function Result(r: Rules, s: seq<Instr>, regs: seq<Reg>, i: nat): Instr
    requires i < |s|
  {
    r.put(s[i], BlockPool(r, s, regs, i), i - Start(Closes(r, s, regs), i))
  }

  /** What a pass may rely on: each instruction takes out at most drop registers, among them those it must avoid. */
  ghost predicate Lawful(r: Rules, s: seq<Instr>, regs: seq<Reg>, drop: nat, avoids: Instr -> seq<Option<Reg>>) {
    && NoDup(regs) && |regs| > r.limit > drop
    && (forall i | 0 <= i < |s| :: !r.done(s[i]))
    && (forall i, pool {:trigger r.clear(pool, s[i])} | 0 <= i < |s| && NoDup(pool) ::
          ClearsWell(pool, r.clear(pool, s[i]), drop, avoids(s[i])))
  }

  ghost predicate ClearsWell(pool: seq<Reg>, rest: seq<Reg>, drop: nat, avoided: seq<Option<Reg>>) {
    && NoDup(rest) && |rest| >= |pool| - drop
    && forall x | x in rest :: x in pool && Some(x) !in avoided
  }

  lemma {:induction false} PoolFacts(r: Rules, s: seq<Instr>, regs: seq<Reg>, drop: nat,
                                     avoids: Instr -> seq<Option<Reg>>, b: nat, e: nat)
    requires b <= e <= |s| && Lawful(r, s, regs, drop, avoids)
    ensures NoDup(Pool(r, s, regs, b, e)) && forall x | x in Pool(r, s, regs, b, e) :: x in regs
    decreases e
  {
    if b < e {
      PoolFacts(r, s, regs, drop, avoids, b, e - 1);
      assert ClearsWell(Pool(r, s, regs, b, e - 1), Pool(r, s, regs, b, e), drop, avoids(s[e - 1]));
    }
  }

  /** A register still in the pool is none of those any instruction of the block uses. */
  lemma {:induction false} PoolAvoids(r: Rules, s: seq<Instr>, regs: seq<Reg>, drop: nat,
                                      avoids: Instr -> seq<Option<Reg>>, b: nat, e: nat, j: nat, x: Reg)
    requires b <= j < e <= |s| && Lawful(r, s, regs, drop, avoids) && x in Pool(r, s, regs, b, e)
    ensures Some(x) !in avoids(s[j])
    decreases e
  {
    PoolFacts(r, s, regs, drop, avoids, b, e - 1);
    assert ClearsWell(Pool(r, s, regs, b, e - 1), Pool(r, s, regs, b, e), drop, avoids(s[e - 1]));
    if j < e - 1 {
      PoolAvoids(r, s, regs, drop, avoids, b, e - 1, j, x);
    }
  }

  lemma {:induction false} StartStable(closes: (nat, nat) -> bool, i: nat, j: nat)
    requires Start(closes, i) <= j <= i
    ensures Start(closes, j) == Start(closes, i)
    decreases i
  {
    if j < i {
      StartStable(closes, i - 1, j);
    }
  }

  /** A block reaches from its start to its end, and the next one starts there. */
  lemma {:induction false} BlockShape(closes: (nat, nat) -> bool, n: nat, i: nat)
    requires i < n
    ensures Start(closes, End(closes, n, i) - 1) == Start(closes, i)
    ensures End(closes, n, i) < n ==> Start(closes, End(closes, n, i)) == End(closes, n, i)
    decreases n - i
  {
    if i + 1 != n && Start(closes, i + 1) != i + 1 {
      BlockShape(closes, n, i + 1);
    }
  }

  lemma {:induction false} EndIs(closes: (nat, nat) -> bool, n: nat, i: nat, e: nat)
    requires i < e <= n && Start(closes, e - 1) == Start(closes, i)
    requires e == n || Start(closes, e) == e
    ensures End(closes, n, i) == e
    decreases e - i
  {
    if i + 1 < e {
      StartStable(closes, e - 1, i + 1);
      EndIs(closes, n, i + 1, e);
    }
  }

  lemma {:induction false} OpenInside(closes: (nat, nat) -> bool, i: nat)
    requires Start(closes, i) < i
    ensures !closes(Start(closes, i), i)
  {
    StartStable(closes, i, i - 1);
  }

  /** Whenever a pass picks registers, its pool still holds more than limit - drop. */
  lemma {:induction false} PoolNeverRunsDry(r: Rules, s: seq<Instr>, regs: seq<Reg>, drop: nat,
                                            avoids: Instr -> seq<Option<Reg>>, i: nat)
    requires i < |s| && Lawful(r, s, regs, drop, avoids)
    ensures |BlockPool(r, s, regs, i)| > r.limit - drop
  {
    var closes := Closes(r, s, regs);
    var b, e := Start(closes, i), End(closes, |s|, i);
    BlockShape(closes, |s|, i);
    if b < e - 1 {
      OpenInside(closes, e - 1);
    }
    PoolFacts(r, s, regs, drop, avoids, b, e - 1);
    assert ClearsWell(Pool(r, s, regs, b, e - 1), Pool(r, s, regs, b, e), drop, avoids(s[e - 1]));
  }

  /** What the pass makes of the whole list. */
  function Results(r: Rules, s: seq<Instr>, regs: seq<Reg>): seq<Instr> {
    seq(|s|, i requires 0 <= i < |s| => Result(r, s, regs, i))
  }

  /** The block from b is complete at e: each of its instructions gets its registers from the pool at e. */
  lemma {:induction false} InBlock(r: Rules, s: seq<Instr>, regs: seq<Reg>, b: nat, e: nat, i: nat)
    requires b <= i < e <= |s| && Start(Closes(r, s, regs), e - 1) == b
    requires e == |s| || Closes(r, s, regs)(b, e)
    ensures Result(r, s, regs, i) == r.put(s[i], Pool(r, s, regs, b, e), i - b)
  {
    StartStable(Closes(r, s, regs), e - 1, i);
    EndIs(Closes(r, s, regs), |s|, i, e);
  }

  lemma {:induction false} CloseBlock(r: Rules, s: seq<Instr>, regs: seq<Reg>, b: nat, e: nat, want: seq<Instr>)
    requires b < e <= |s| && Start(Closes(r, s, regs), e - 1) == b
    requires |want| == |s| && forall i | 0 <= i < |s| :: want[i] == Result(r, s, regs, i)
    requires e == |s| || Closes(r, s, regs)(b, e)
    ensures forall i | b <= i < e :: want[i] == r.put(s[i], Pool(r, s, regs, b, e), i - b)
  {
    var pool := Pool(r, s, regs, b, e);
    forall i | b <= i < e ensures want[i] == r.put(s[i], pool, i - b) {
      InBlock(r, s, regs, b, e, i);
    }
  }

  // ---------------------------------------------------------------------
  // The loop
  // ---------------------------------------------------------------------

  method Assign(r: Rules, a: array<Instr>, from: nat, to: nat, pool: seq<Reg>)
    requires from <= to <= a.Length && forall i | from <= i < to :: !r.done(a[i])
    modifies a
    ensures forall i | from <= i < to :: a[i] == r.put(old(a[i]), pool, i - from)
    ensures forall i | 0 <= i < from || to <= i < a.Length :: a[i] == old(a[i])
  {
    var i := from;
    while i < to
      invariant from <= i <= to
      invariant forall j | 0 <= j < a.Length ::
                  a[j] == if from <= j < i then r.put(old(a[j]), pool, j - from) else old(a[j])
    {
      if !r.done(a[i]) {
        a[i] := r.put(a[i], pool, i - from);
      }
      i := i + 1;
    }
  }

  /** Fills the block from b, complete at e, from the pool left there. */
  method FillBlock(r: Rules, a: array<Instr>, b: nat, e: nat, pool: seq<Reg>, ghost s: seq<Instr>, ghost regs: seq<Reg>,
                   ghost want: seq<Instr>)
    requires b < e <= a.Length == |s| && Start(Closes(r, s, regs), e - 1) == b && want == Results(r, s, regs)
    requires e == |s| || Closes(r, s, regs)(b, e)
    requires pool == Pool(r, s, regs, b, e) && forall i | b <= i < |s| :: a[i] == s[i] && !r.done(s[i])
    modifies a
    ensures forall i | b <= i < e :: a[i] == want[i]
    ensures forall i | 0 <= i < b || e <= i < a.Length :: a[i] == old(a[i])
  {
    assert forall i | b <= i < e :: want[i] == r.put(s[i], pool, i - b) by {
      CloseBlock(r, s, regs, b, e, want);
    }
    Assign(r, a, b, e, pool);
  }

  method Allocate(r: Rules, a: array<Instr>, regs: seq<Reg>)
    requires forall i | 0 <= i < a.Length :: !r.done(a[i])
    modifies a
    ensures a[..] == Results(r, old(a[..]), regs)
  {
    ghost var s, want := a[..], Results(r, a[..], regs);
    ghost var closes := Closes(r, s, regs);
    var available := regs;
    var placed := 0;
    for count := 0 to a.Length
      invariant placed == Start(closes, count) && available == Pool(r, s, regs, placed, count)
      invariant forall i | placed <= i < a.Length :: a[i] == s[i]
      invariant forall i | 0 <= i < placed :: a[i] == want[i]
    {
      available := r.clear(available, a[count]);
      assert available == Pool(r, s, regs, placed, count + 1);
      assert closes(placed, count + 1) <==> |available| <= r.limit;
      assert Start(closes, count + 1) == if |available| <= r.limit then count + 1 else placed;
      if |available| <= r.limit {
        FillBlock(r, a, placed, count + 1, available, s, regs, want);
        assert forall i | 0 <= i < count + 1 :: a[i] == want[i];
        placed := count + 1;
        available := regs;
      }
    }
    if placed != a.Length {
      StartStable(closes, a.Length, a.Length - 1);
      FillBlock(r, a, placed, a.Length, available, s, regs, want);
    }
  }
}
