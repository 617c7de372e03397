/**
  Which sequence the `LI` macro of env/arch-test/arch_test.h picks for XLEN 64, by
  the shape of the constant: the first shape of the list that it has.
 */
module LoadChoices {
  import opened Arithmetic
  import opened LoadImmediate

  // ---------------------------------------------------------------------
  // Where the edges of a constant are
  // ---------------------------------------------------------------------

  lemma {:induction false} LowZero(x: int, n: nat, b: nat)
    requires Low(x, n) == 0 && b < n
    ensures Bit(x, b) == 0
    decreases n
  {
    LowStep(x, n - 1);
    if b < n - 1 { LowZero(x, n - 1, b); }
  }

  /** The lowest set bit is at one place only. */
  lemma {:induction false} LowestIs(x: int, a: nat, b: nat)
    requires Low(x, a) == 0 && Bit(x, a) == 1 && Low(x, b) == 0 && Bit(x, b) == 1
    ensures a == b
  {
    if a < b { LowZero(x, b, a); }
    if b < a { LowZero(x, a, b); }
  }

  lemma {:induction false} OddMultiple(q: int, n: nat)
    requires q % 2 == 1
    ensures Low(q * Pow2(n), n) == 0 && Bit(q * Pow2(n), n) == 1
  {
    DivModUnique(q * Pow2(n), Pow2(n), q, 0);
    ShrLowDivMod(q * Pow2(n), n);
  }

  /** The scan finds n as the first edge of an odd multiple of 2^n. */
  lemma {:induction false} FirstEdge(x: nat, q: int, n: nat, e: Edges)
    requires EdgesBelow(x, 64, e) && e.fnd1 && x == q * Pow2(n) && q % 2 == 1
    ensures e.edge1 == n
  {
    OddMultiple(q, n);
    LowestIs(x, n, e.edge1);
  }

  lemma {:induction false} Pow2Odd(n: nat)
    requires n > 0
    ensures (Pow2(n) - 1) % 2 == 1
  {
    DivModUnique(Pow2(n) - 1, 2, Pow2(n - 1) - 1, 1);
  }

  /** 2^hi - 2^lo: its lowest set bit is lo, and all from there to hi are set. */
  lemma {:induction false} RunIs(lo: nat, hi: nat)
    requires lo < hi
    ensures Pow2(hi) - Pow2(lo) == (Pow2(hi - lo) - 1) * Pow2(lo) && (Pow2(hi - lo) - 1) % 2 == 1
  {
    Pow2Add(hi - lo, lo);
    MulSub(Pow2(hi - lo), 1, Pow2(lo));
    Pow2Odd(hi - lo);
  }

  lemma {:induction false} RunBit(lo: nat, hi: nat, b: nat)
    requires lo <= b < hi
    ensures Bit(Pow2(hi) - Pow2(lo), b) == 1
  {
    var p, k := Pow2(b), hi - b;
    Pow2Add(k, b);
    Pow2Odd(k);
    if lo < b { Pow2Less(lo, b); }
    MulSub(Pow2(k), 1, p);
    DivModUnique(Pow2(hi) - Pow2(lo), p, Pow2(k) - 1, p - Pow2(lo));
    ShrLowDivMod(Pow2(hi) - Pow2(lo), b);
  }

  /** So the scan finds both ends of a run; of one that reaches the top only the first. */
  lemma {:induction false} RunEdges(x: nat, lo: nat, hi: nat, e: Edges)
    requires EdgesBelow(x, 64, e) && e.fnd1 && lo < hi <= 64 && x == Pow2(hi) - Pow2(lo)
    ensures e.edge1 == lo && (if hi == 64 then !e.fnd2 else e.fnd2 && e.edge2 == hi)
  {
    RunIs(lo, hi);
    FirstEdge(x, Pow2(hi - lo) - 1, lo, e);
    Pow2Constants();
    if hi < 64 { Pow2Less(hi, 64); }
    LowSmall(x, 64);
    if e.fnd2 {
      if e.edge2 < hi { RunBit(lo, hi, e.edge2); }
      if hi < e.edge2 { Pow2Less(hi, e.edge2); LowSmall(x, e.edge2); }
    }
  }

  // ---------------------------------------------------------------------
  // The shapes
  // ---------------------------------------------------------------------

  /** A 12-bit signed number. */
  predicate Short(immx: nat) {
    immx < 2048 || W64 - 2048 <= immx
  }

  /** A word, as far as line 434 sees it: read as in C, the number or its complement and the carry stay below 2^31. */
  predicate WordSized(immx: nat, rd: Reading) {
    var cry := immx / 2048 % 2 * 4096;
    rd.addFirst && if immx < W64 / 2 then immx + cry < W31 else W64 - 1 + cry < W31 + immx
  }

  /** Ones followed by n zeroes, or n ones preceded by zeroes. */
  predicate TopRun(immx: nat, n: nat) {
    0 < n < 64 && (immx == W64 - Pow2(n) || immx == Pow2(n) - 1)
  }

  /** One bit above the lowest, or all but that one. */
  predicate OneBit(immx: nat, n: nat) {
    0 < n < 64 && (immx == Pow2(n) || immx == W64 - 1 - Pow2(n))
  }

  /** Some bits in a row, not the lowest nor the highest, or all but those. */
  predicate InnerRun(immx: nat, lo: nat, hi: nat) {
    0 < lo < hi < 64 && (immx == Pow2(hi) - Pow2(lo) || immx == W64 - 1 - (Pow2(hi) - Pow2(lo)))
  }

  /** An odd number and n zeroes, as the shift reads immx. */
  predicate Trailing(immx: nat, x: int, n: nat, rd: Reading) {
    0 < n < 64 && x % 2 == 1
    && if rd.arithmeticShift && immx >= W64 / 2 then x * Pow2(n) + W64 == immx else x * Pow2(n) == immx
  }

  /** Of 12 bits without a sign; and of a word, by the test of line 463. */
  predicate Small(x: int) {
    0 <= x < 2048
  }

  predicate Medium(x: int) {
    if x / 2048 % 2 == 0 then 0 <= x < W31 else 0 <= x + W31 < W31
  }

  ghost predicate SomeRun(immx: nat) {
    (exists n :: TopRun(immx, n)) || (exists n :: OneBit(immx, n)) || exists lo, hi :: InnerRun(immx, lo, hi)
  }

  ghost predicate SomeTrailing(immx: nat, rd: Reading) {
    exists x, n :: Trailing(immx, x, n, rd) && (Small(x) || Medium(x))
  }

  /** Shapes the macro tries before it looks at runs. */
  predicate Direct(immx: nat, rd: Reading) {
    Short(immx) || WordSized(immx, rd)
  }

  // ---------------------------------------------------------------------
  // The guards are the shapes
  // ---------------------------------------------------------------------

  lemma {:induction false} ShortGuard(immx: nat)
    requires immx < W64
    ensures Shr(Absimm(immx), 11) == 0 <==> Short(immx)
  {
    TopBit(immx);
    ShrRanges(Absimm(immx));
  }

  lemma {:induction false} GuardValue(abs: nat, cry: nat, rd: Reading)
    requires abs >= 2048 && cry <= 1
    ensures WordGuard(abs, cry, rd) == 0 <==> rd.addFirst && abs + cry * 4096 < W31
  {
    if rd.addFirst {
      ShrRanges(abs + cry * 4096);
    } else {
      ShrRanges(cry * 4096);
    }
  }

  lemma {:induction false} WordGuardIs(immx: nat, rd: Reading)
    requires immx < W64 && !Short(immx)
    ensures WordGuard(Absimm(immx), Bit(immx, 11), rd) == 0 <==> WordSized(immx, rd)
  {
    var abs, cry := Absimm(immx), immx / 2048 % 2;
    assert Bit(immx, 11) == cry by { ShrConstants(immx); }
    assert abs >= 2048 && abs == if immx < W64 / 2 then immx else W64 - 1 - immx by { TopBit(immx); }
    GuardValue(abs, cry, rd);
  }

  lemma {:induction false} Parity(immx: nat)
    ensures Bit(immx, 0) == immx % 2
  {
  }

  lemma {:induction false} Pow2Even(n: nat)
    requires n > 0
    ensures Pow2(n) % 2 == 0
  {
    DivModUnique(Pow2(n), 2, Pow2(n - 1), 0);
  }

  lemma {:induction false} TopRunGuard(immx: nat, n: nat, e: Edges)
    requires immx < W64 && EdgesBelow(Imme(immx), 64, e) && e.fnd1 && TopRun(immx, n)
    ensures !e.fnd2 && e.edge1 == n && (Bit(immx, 0) == 0 <==> immx == W64 - Pow2(n))
  {
    Parity(immx);
    Pow2Even(n);
    Pow2Constants();
    RunEdges(Imme(immx), n, 64, e);
  }

  lemma {:induction false} TopRunOnly(immx: nat, e: Edges)
    requires immx < W64 && !Short(immx) && EdgesBelow(Imme(immx), 64, e) && e.fnd1 && !e.fnd2
    ensures TopRun(immx, e.edge1)
  {
    ShortGuard(immx);
    EdgeFacts(immx, e);
    Parity(immx);
  }

  lemma {:induction false} OneBitGuard(immx: nat, n: nat, e: Edges)
    requires immx < W64 && EdgesBelow(Imme(immx), 64, e) && e.fnd1 && OneBit(immx, n)
    ensures e.edge1 == n && Imme(immx) == Pow2(n) && (Bit(immx, 0) == 0 <==> immx == Pow2(n))
  {
    Parity(immx);
    Pow2Even(n);
    FirstEdge(Imme(immx), 1, n, e);
  }

  lemma {:induction false} OneBitOnly(immx: nat, e: Edges)
    requires immx < W64 && !Short(immx) && EdgesBelow(Imme(immx), 64, e) && e.fnd1 && Imme(immx) == Pow2(e.edge1)
    ensures OneBit(immx, e.edge1)
  {
    ShortGuard(immx);
    EdgeFacts(immx, e);
    Parity(immx);
  }

  lemma {:induction false} InnerRunGuard(immx: nat, lo: nat, hi: nat, e: Edges)
    requires immx < W64 && EdgesBelow(Imme(immx), 64, e) && e.fnd1 && InnerRun(immx, lo, hi)
    ensures e.fnd2 && e.edge1 == lo && e.edge2 == hi && Imme(immx) == Pow2(hi) - Pow2(lo)
    ensures Bit(immx, 0) == 0 <==> immx == Pow2(hi) - Pow2(lo)
  {
    Parity(immx);
    Pow2Even(lo);
    Pow2Even(hi);
    RunEdges(Imme(immx), lo, hi, e);
  }

  lemma {:induction false} InnerRunOnly(immx: nat, e: Edges)
    requires immx < W64 && !Short(immx) && EdgesBelow(Imme(immx), 64, e) && e.fnd1 && e.fnd2
    requires Imme(immx) == Pow2(e.edge2) - Pow2(e.edge1)
    ensures InnerRun(immx, e.edge1, e.edge2)
  {
    ShortGuard(immx);
    EdgeFacts(immx, e);
    Parity(immx);
  }

  lemma {:induction false} EvenTimes(x: int, n: nat)
    requires n > 0
    ensures (x * Pow2(n)) % 2 == 0
  {
    var half := x * Pow2(n - 1);
    assert x * Pow2(n) == 2 * half by {
      MulAssoc(x, 2, Pow2(n - 1));
      MulAssoc(2, x, Pow2(n - 1));
    }
    DivModUnique(2 * half, 2, half, 0);
  }

  lemma {:induction false} TrailingShift(immx: nat, x: int, n: nat, rd: Reading)
    requires immx < W64 && Trailing(immx, x, n, rd)
    ensures immx == Imme(immx) && Shr(Signed(immx, rd), n) == x
  {
    var s := Signed(immx, rd);
    assert s == x * Pow2(n) && s % 2 == 0 by { EvenTimes(x, n); }
    assert Shr(s, n) == x by {
      DivModUnique(s, Pow2(n), x, 0);
      ShrLowDivMod(s, n);
    }
    Parity(immx);
  }

  lemma {:induction false} Wrapped(x: int, p: int, q: int, v: int)
    requires p * q == W64 && x * p + W64 == v
    ensures v == (x + q) * p
  {
    Distribute(x, q, p);
  }

  lemma {:induction false} Distribute(a: int, b: int, p: int)
    ensures (a + b) * p == a * p + b * p
  {
  }

  lemma {:induction false} TrailingGuard(immx: nat, x: int, n: nat, rd: Reading, e: Edges)
    requires immx < W64 && EdgesBelow(Imme(immx), 64, e) && e.fnd1 && Trailing(immx, x, n, rd)
    ensures immx == Imme(immx) && e.edge1 == n && Shr(Signed(immx, rd), n) == x
  {
    TrailingShift(immx, x, n, rd);
    var y := OddFactor(immx, x, n, rd);
    FirstEdge(immx, y, n, e);
  }

  lemma {:induction false} OddFactor(immx: nat, x: int, n: nat, rd: Reading) returns (y: int)
    requires immx < W64 && Trailing(immx, x, n, rd)
    ensures immx == y * Pow2(n) && y % 2 == 1
  {
    y := x;
    if Signed(immx, rd) != immx {
      var q := Pow2(64 - n);
      assert Pow2(n) * q == W64 && q % 2 == 0 by { Pow2Split(n); Pow2Even(64 - n); }
      Wrapped(x, Pow2(n), q, immx);
      y := x + q;
      OddEven(x, q);
    }
  }

  lemma {:induction false} OddEven(x: int, q: int)
    requires x % 2 == 1 && q % 2 == 0
    ensures (x + q) % 2 == 1
  {
  }

  lemma {:induction false} ShiftOdd(s: int, q: int, r: int, n: nat)
    requires s == (q - r) * Pow2(n) && q % 2 == 1 && r % 2 == 0
    ensures Shr(s, n) == q - r && (q - r) % 2 == 1
  {
    DivModUnique(s, Pow2(n), q - r, 0);
    ShrLowDivMod(s, n);
  }

  /** What the scan finds in a constant the macro takes for a shifted one. */
  lemma {:induction false} TrailingOnly(immx: nat, rd: Reading, e: Edges)
    requires immx < W64 && !Short(immx) && EdgesBelow(Imme(immx), 64, e) && e.fnd1 && immx == Imme(immx)
    ensures Trailing(immx, Shr(Signed(immx, rd), e.edge1), e.edge1, rd)
  {
    var n, s := e.edge1, Signed(immx, rd);
    assert 0 < n < 64 && immx == Shr(immx, n) * Pow2(n) by {
      ShortGuard(immx);
      EdgeFacts(immx, e);
    }
    var q := Shr(immx, n);
    assert q % 2 == 1 by { assert Bit(immx, n) == 1; }
    if s != immx {
      var r := Pow2(64 - n);
      assert Pow2(n) * r == W64 && r % 2 == 0 by { Pow2Split(n); Pow2Even(64 - n); }
      Distribute(q - r, r, Pow2(n));
      ShiftOdd(s, q, r, n);
    }
  }

  // ---------------------------------------------------------------------
  // The choice
  // ---------------------------------------------------------------------

  /** One instruction for a short constant, at most two for a word. */
  lemma {:induction false} DirectChoice(code: seq<Instr>, immx: nat, rd: Reading)
    requires immx < W64 && Chosen64(code, immx, rd)
    ensures Short(immx) ==> code == [Li(if immx < 2048 then immx else immx - W64)]
    ensures !Short(immx) && WordSized(immx, rd) ==> code == LuiAddi(immx) && |code| <= 2
  {
    ShortGuard(immx);
    if Short(immx) {
      SextShort(immx, W64);
    } else {
      WordGuardIs(immx, rd);
    }
  }

  /** The edges behind the choice for any other constant. */
  lemma {:induction false} WideChoice(code: seq<Instr>, immx: nat, rd: Reading) returns (e: Edges)
    requires immx < W64 && Chosen64(code, immx, rd) && !Direct(immx, rd)
    ensures EdgesBelow(Imme(immx), 64, e) && e.fnd1 && code == WideCode(immx, rd, e)
  {
    ShortGuard(immx);
    WordGuardIs(immx, rd);
    e :| EdgesBelow(Imme(immx), 64, e) && e.fnd1 && code == WideCode(immx, rd, e);
  }

  /** Two instructions for ones followed or preceded by zeroes. */
  lemma {:induction false} TopRunChoice(code: seq<Instr>, immx: nat, rd: Reading, n: nat)
    requires immx < W64 && Chosen64(code, immx, rd) && !Direct(immx, rd) && TopRun(immx, n)
    ensures code == [Li(-1), if immx == W64 - Pow2(n) then Slli(n) else Srli(64 - n)]
  {
    var e := WideChoice(code, immx, rd);
    TopRunGuard(immx, n, e);
  }

  /** Two for a single bit, and one more to complement it. */
  lemma {:induction false} OneBitChoice(code: seq<Instr>, immx: nat, rd: Reading, n: nat)
    requires immx < W64 && Chosen64(code, immx, rd) && !Direct(immx, rd) && OneBit(immx, n)
    requires forall m :: !TopRun(immx, m)
    ensures code == [Li(1), Slli(n)] + if immx == Pow2(n) then [] else [XoriMinus1]
  {
    var e := WideChoice(code, immx, rd);
    OneBitGuard(immx, n, e);
    if !e.fnd2 { TopRunOnly(immx, e); }
  }

  /** Three for a run inside, and one more to complement it. */
  lemma {:induction false} InnerRunChoice(code: seq<Instr>, immx: nat, rd: Reading, lo: nat, hi: nat)
    requires immx < W64 && Chosen64(code, immx, rd) && !Direct(immx, rd) && InnerRun(immx, lo, hi)
    requires forall m :: !OneBit(immx, m)
    ensures code
         == [Li(-1), Srli(64 - (hi - lo)), Slli(lo)] + if immx == Pow2(hi) - Pow2(lo) then [] else [XoriMinus1]
  {
    var e := WideChoice(code, immx, rd);
    InnerRunGuard(immx, lo, hi, e);
    if Imme(immx) == Pow2(e.edge1) { OneBitOnly(immx, e); }
  }

  /** Without a run: an odd number that fits, shifted. */
  lemma {:induction false} NoRun(immx: nat, e: Edges)
    requires immx < W64 && !Short(immx) && EdgesBelow(Imme(immx), 64, e) && e.fnd1 && !SomeRun(immx)
    ensures e.fnd2 && Imme(immx) != Pow2(e.edge1) && Imme(immx) != Pow2(e.edge2) - Pow2(e.edge1)
  {
    if !e.fnd2 { TopRunOnly(immx, e); }
    if Imme(immx) == Pow2(e.edge1) { OneBitOnly(immx, e); }
    if e.fnd2 && Imme(immx) == Pow2(e.edge2) - Pow2(e.edge1) { InnerRunOnly(immx, e); }
  }

  lemma {:induction false} SmallGuard(x: int)
    ensures Shr(x, 11) == 0 <==> Small(x)
    ensures !Small(x) ==> (Shr(x, 31) + Bit(x, 11) == 0 <==> Medium(x))
    ensures Small(x) ==> SextImm(x) == x
  {
    assert Shr(x, 11) == 0 <==> Small(x) by { ShrRanges(x); }
    assert Bit(x, 11) == x / 2048 % 2 by { ShrConstants(x); }
    if !Small(x) { WordShift(x, Shr(x, 31), Bit(x, 11)); }
  }

  lemma {:induction false} WordShift(x: int, s: int, bit: nat)
    requires s == Shr(x, 31) && bit == x / 2048 % 2 && !Small(x)
    ensures s + bit == 0 <==> Medium(x)
  {
    ShrRanges(x);
  }

  lemma {:induction false} TrailingChoice(code: seq<Instr>, immx: nat, rd: Reading, x: int, n: nat)
    requires immx < W64 && Chosen64(code, immx, rd) && !Direct(immx, rd) && !SomeRun(immx)
    requires Trailing(immx, x, n, rd) && (Small(x) || Medium(x))
    ensures code == if Small(x) then [Li(x), Slli(n)] else LuiAddi(x) + [Slli(n)]
  {
    var e := WideChoice(code, immx, rd);
    NoRun(immx, e);
    TrailingGuard(immx, x, n, rd, e);
    SmallGuard(x);
  }

  /** Seven or eight for everything else. */
  lemma {:induction false} LongChoice(code: seq<Instr>, immx: nat, rd: Reading)
    requires immx < W64 && Chosen64(code, immx, rd) && !Direct(immx, rd) && !SomeRun(immx) && !SomeTrailing(immx, rd)
    ensures code == LongPrefix(immx) + if immx % 1024 != 0 then [Addi(immx % 1024)] else []
  {
    var e := WideChoice(code, immx, rd);
    NoRun(immx, e);
    if immx == Imme(immx) {
      var x := Shr(Signed(immx, rd), e.edge1);
      TrailingOnly(immx, rd, e);
      SmallGuard(x);
      assert Trailing(immx, x, e.edge1, rd);
    }
  }
}
