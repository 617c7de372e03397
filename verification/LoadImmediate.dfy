/**
  The fixed-length load-immediate macro `LI` of env/arch-test/arch_test.h.

  Assembler symbols are mathematical integers, so masking with `2^k - 1` is
  `% 2^k`, a right shift is a division by a power of two and xor with all ones
  is a complement.  Registers hold naturals below `2^XLEN`.
 */
module LoadImmediate {

  import opened Arithmetic

  const W31: nat := 0x8000_0000
  const W32: nat := 0x1_0000_0000
  const W64: nat := 0x1_0000_0000_0000_0000

  /** SEXT_IMM(x): the low 12 bits of x, sign extended. */
  function SextImm(x: int): (s: int)
    ensures -2048 <= s < 2048 && (x - s) % 4096 == 0
  {
    var v := x % 4096;
    if v >= 2048 then v - 4096 else v
  }

  // ---------------------------------------------------------------------
  // The instructions the macro emits, all on one register
  // (sections 2.4 and 5.2 of the RISC-V ISA manual, volume I, 20191213).
  // ---------------------------------------------------------------------

  datatype Instr =
    | Li(imm: int)        // addi reg, x0, imm
    | Lui(imm20: nat)
    | Addi(imm: int)
    | Slli(shamt: nat)
    | Srli(shamt: nat)
    | XoriMinus1          // xori reg, reg, -1

  predicate Encodable(i: Instr, xlen: nat) {
    match i
    case Li(imm) => -2048 <= imm < 2048
    case Lui(u) => u < 0x10_0000
    case Addi(imm) => -2048 <= imm < 2048
    case Slli(s) => s < xlen
    case Srli(s) => s < xlen
    case XoriMinus1 => true
  }

  /** The 20-bit immediate placed at bit 12, sign extended from bit 31. */
  function LuiValue(u: nat): int {
    if u < 0x8_0000 then u * 4096 else u * 4096 - W32
  }

  function Step(i: Instr, r: nat, w: nat): (r': nat)
    requires r < w
    ensures r' < w
  {
    match i
    case Li(imm) => imm % w
    case Lui(u) => LuiValue(u) % w
    case Addi(imm) => (r + imm) % w
    case Slli(s) => (r * Pow2(s)) % w
    case Srli(s) => Shr(r, s)
    case XoriMinus1 => w - 1 - r
  }

  function Exec(code: seq<Instr>, r: nat, w: nat): (r': nat)
    requires r < w
    ensures r' < w
    decreases |code|
  {
    if code == [] then r else Exec(code[1..], Step(code[0], r, w), w)
  }

  /** What the macro promises: whatever the register held before, it now holds v. */
  ghost predicate Loads(code: seq<Instr>, v: int, xlen: nat, w: nat) {
    && |code| <= 8
    && (forall i | 0 <= i < |code| :: Encodable(code[i], xlen))
    && forall r: nat | r < w :: Exec(code, r, w) == v
  }

  // ---------------------------------------------------------------------
  // The edge scan
  // ---------------------------------------------------------------------

  datatype Edges = Edges(edge1: nat, edge2: nat, fnd1: bool, fnd2: bool)

  /** Lowest set bit and next clear bit above it, among the low n bits. */
  predicate EdgesBelow(x: nat, n: nat, e: Edges) {
    if !e.fnd1 then
      !e.fnd2 && Low(x, n) == 0
    else
      && e.edge1 < n
      && Low(x, e.edge1) == 0 && Bit(x, e.edge1) == 1
      && if !e.fnd2 then
           Low(x, n) == Pow2(n) - Pow2(e.edge1)
         else
           && e.edge1 < e.edge2 < n
           && Low(x, e.edge2) == Pow2(e.edge2) - Pow2(e.edge1) && Bit(x, e.edge2) == 0
  }

  method ScanEdges(imme: nat) returns (e: Edges)
    ensures EdgesBelow(imme, 64, e)
  {
    var edge1, edge2, fnd1, fnd2 := 1, 0, false, false;
    var pos := 0;
    while pos < 64
      invariant 0 <= pos <= 64
      invariant EdgesBelow(imme, pos, Edges(edge1, edge2, fnd1, fnd2))
    {
      LowStep(imme, pos);
      if !fnd1 {
        if Bit(imme, pos) == 1 {
          edge1, fnd1 := pos, true;
        }
      } else if !fnd2 {
        if Bit(imme, pos) == 0 {
          edge2, fnd2 := pos, true;
        }
      }
      pos := pos + 1;
    }
    e := Edges(edge1, edge2, fnd1, fnd2);
  }

  // ---------------------------------------------------------------------
  // Running the emitted sequences
  // ---------------------------------------------------------------------

  lemma {:induction false} ExecOne(i: Instr, r: nat, w: nat)
    requires r < w
    ensures Exec([i], r, w) == Step(i, r, w)
  {
  }

  lemma {:induction false} ExecAppend(a: seq<Instr>, b: seq<Instr>, r: nat, w: nat)
    requires r < w
    ensures Exec(a + b, r, w) == Exec(b, Exec(a, r, w), w)
    decreases |a|
  {
    if a == [] {
      assert a + b == b;
    } else {
      assert (a + b)[1..] == a[1..] + b;
      ExecAppend(a[1..], b, Step(a[0], r, w), w);
    }
  }

  lemma {:induction false} ExecTwo(i: Instr, j: Instr, r: nat, w: nat)
    requires r < w
    ensures Exec([i, j], r, w) == Step(j, Step(i, r, w), w)
  {
    assert [i, j] == [i] + [j];
    ExecAppend([i], [j], r, w);
    ExecOne(i, r, w);
    ExecOne(j, Step(i, r, w), w);
  }

  /** The part of x left for lui once the sign-extended low bits are taken out. */
  function Upper(x: int): int {
    Shr(x, 12) + Bit(x, 11)
  }

  /** lui, then addi unless the low 12 bits are zero; imm, immx and their SEXT_IMM agree on those bits. */
  function LuiAddi(x: int): seq<Instr> {
    [Lui(Upper(x) % 0x10_0000)] + if x % 4096 != 0 then [Addi(SextImm(x))] else []
  }

  lemma {:induction false} CarrySplit(x: int)
    ensures x == (x / 0x1000 + x / 0x800 % 2) * 0x1000 + SextImm(x)
  {
    var q, m := x / 0x800, x % 0x800;
    DivModUnique(x, 0x1000, q / 2, q % 2 * 0x800 + m);
  }

  lemma {:induction false} UpperSplit(x: int)
    ensures x == Upper(x) * 0x1000 + SextImm(x)
  {
    assert Upper(x) == x / 0x1000 + x / 0x800 % 2 by { ShrConstants(x); }
    CarrySplit(x);
  }

  /** lui's part fits 20 signed bits, as a number or as a 64-bit two's complement pattern. */
  predicate LuiFits(h: int) {
    -0x8_0000 <= h < 0x8_0000 || -0x8_0000 <= h - 0x10_0000_0000_0000 < 0x8_0000
  }

  /** lui's part of a number, up to a multiple of 2^32. */
  lemma {:induction false} LuiValueCongruent(h: int) returns (k: int)
    ensures h * 0x1000 == LuiValue(h % 0x10_0000) + k * W32
    ensures LuiFits(h) ==> k == 0 || k == W32
  {
    k := h / 0x10_0000 + (if h % 0x10_0000 < 0x8_0000 then 0 else 1);
  }

  /** lui and addi together give x modulo 2^32, and modulo 2^64 when lui's part fits 20 signed bits. */
  lemma {:induction false} LuiAddiValue(h: int, i: int, w: nat)
    requires w == W32 || (w == W64 && LuiFits(h))
    ensures (LuiValue(h % 0x10_0000) + i) % w == (h * 0x1000 + i) % w
  {
    var k := LuiValueCongruent(h);
    ModAddMultiple(LuiValue(h % 0x10_0000) + i, if w == W32 then k else k / W32, w);
  }

  lemma {:induction false} LuiThenAddi(u: nat, i: int, r: nat, w: nat)
    requires r < w
    ensures Exec([Lui(u), Addi(i)], r, w) == (LuiValue(u) + i) % w
  {
    ExecTwo(Lui(u), Addi(i), r, w);
    ModAdd(LuiValue(u), i, w);
  }

  lemma {:induction false} LuiAddiExec(h: int, i: int, skip: bool, r: nat, w: nat)
    requires r < w && (skip ==> i == 0)
    requires w == W32 || (w == W64 && LuiFits(h))
    ensures Exec([Lui(h % 0x10_0000)] + if skip then [] else [Addi(i)], r, w) == (h * 0x1000 + i) % w
  {
    var u := h % 0x10_0000;
    LuiAddiValue(h, i, w);
    if skip {
      ExecOne(Lui(u), r, w);
      assert [Lui(u)] + [] == [Lui(u)];
    } else {
      LuiThenAddi(u, i, r, w);
      assert [Lui(u)] + [Addi(i)] == [Lui(u), Addi(i)];
    }
  }

  lemma {:induction false} LuiAddiLoads(x: int, r: nat, w: nat)
    requires r < w
    requires w == W32 || (w == W64 && LuiFits(Upper(x)))
    ensures Exec(LuiAddi(x), r, w) == x % w
  {
    UpperSplit(x);
    LuiAddiExec(Upper(x), SextImm(x), x % 4096 == 0, r, w);
  }

  // ---------------------------------------------------------------------
  // One lemma for each guarded branch of the 64-bit macro
  // ---------------------------------------------------------------------

  lemma {:induction false} Pow2Split(e: nat)
    requires e <= 64
    ensures Pow2(e) * Pow2(64 - e) == Pow2(64) == W64
    ensures e < 64 ==> Pow2(e) < W64
  {
    Pow2Add(e, 64 - e);
    Pow2Constants();
    if e < 64 { Pow2Less(e, 64); }
  }

  /** All ones shifted right, and all ones shifted left. */
  lemma {:induction false} ShiftedOnes(n: nat)
    requires n <= 64
    ensures Shr(W64 - 1, 64 - n) == Pow2(n) - 1
    ensures n < 64 ==> Pow2(n) < W64 && ((W64 - 1) * Pow2(n)) % W64 == W64 - Pow2(n)
  {
    Pow2Split(n);
    var p, q := Pow2(n), Pow2(64 - n);
    MulSub(p, 1, q);
    ShrLowDivMod(W64 - 1, 64 - n);
    DivModUnique(W64 - 1, q, p - 1, q - 1);
    MulSub(W64, 1, p);
    if n < 64 {
      DivModUnique((W64 - 1) * p, W64, p - 1, W64 - p);
    }
  }

  lemma {:induction false} LeadingOnes(n: nat, r: nat)
    requires n < 64 && r < W64
    ensures Exec([Li(-1), Slli(n)], r, W64) == W64 - Pow2(n)
  {
    ShiftedOnes(n);
    ExecTwo(Li(-1), Slli(n), r, W64);
  }

  lemma {:induction false} TrailingOnes(n: nat, r: nat)
    requires n <= 64 && r < W64
    ensures Exec([Li(-1), Srli(64 - n)], r, W64) == Pow2(n) - 1
  {
    ShiftedOnes(n);
    ExecTwo(Li(-1), Srli(64 - n), r, W64);
  }

  lemma {:induction false} SingleBit(n: nat, r: nat)
    requires n < 64 && r < W64
    ensures Pow2(n) < W64 && Exec([Li(1), Slli(n)], r, W64) == Pow2(n)
  {
    ShiftedOnes(n);
    ExecTwo(Li(1), Slli(n), r, W64);
  }

  lemma {:induction false} ThenSlli(code: seq<Instr>, x: int, n: nat, r: nat)
    requires r < W64 && Exec(code, r, W64) == x % W64
    ensures Exec(code + [Slli(n)], r, W64) == (x * Pow2(n)) % W64
  {
    ExecAppend(code, [Slli(n)], r, W64);
    ExecOne(Slli(n), Exec(code, r, W64), W64);
    ModMul(x, Pow2(n), W64);
  }

  lemma {:induction false} BitRun(lo: nat, hi: nat, r: nat)
    requires lo < hi < 64 && r < W64
    ensures 0 <= Pow2(hi) - Pow2(lo) < W64
    ensures Exec([Li(-1), Srli(64 - (hi - lo))] + [Slli(lo)], r, W64) == Pow2(hi) - Pow2(lo)
  {
    Pow2Less(lo, hi);
    Pow2Split(hi);
    var n, ones := hi - lo, Pow2(hi - lo) - 1;
    assert ones * Pow2(lo) == Pow2(hi) - Pow2(lo) by {
      Pow2Add(n, lo);
      MulSub(Pow2(n), 1, Pow2(lo));
    }
    TrailingOnes(n, r);
    assert ones % W64 == ones by { Pow2Split(n); ModSigned(ones, ones, W64); }
    ThenSlli([Li(-1), Srli(64 - n)], ones, lo, r);
    ModSigned(ones * Pow2(lo), Pow2(hi) - Pow2(lo), W64);
  }

  lemma {:induction false} ThenXori(code: seq<Instr>, r: nat)
    requires r < W64
    ensures Exec(code + [XoriMinus1], r, W64) == W64 - 1 - Exec(code, r, W64)
  {
    ExecAppend(code, [XoriMinus1], r, W64);
    ExecOne(XoriMinus1, Exec(code, r, W64), W64);
  }

  lemma {:induction false} ThenAddi(code: seq<Instr>, x: int, i: int, r: nat)
    requires r < W64 && Exec(code, r, W64) == x % W64
    ensures Exec(code + [Addi(i)], r, W64) == (x + i) % W64
  {
    ExecAppend(code, [Addi(i)], r, W64);
    ExecOne(Addi(i), Exec(code, r, W64), W64);
    ModAdd(x, i, W64);
  }

  /** The fixed 8-instruction sequence, without its optional last addi. */
  function LongForm(h: int, i: int, a: int, b: int): seq<Instr> {
    [Lui(h % 0x10_0000), Addi(i)] + [Slli(11)] + [Addi(a)] + [Slli(11)] + [Addi(b)] + [Slli(10)]
  }

  function LongNumber(x: int, a: int, b: int): int {
    ((x * 2048 + a) * 2048 + b) * 1024
  }

  function LongPrefix(immx: int): seq<Instr> {
    LongForm(Shr(immx, 44) + Bit(immx, 43), SextImm(Shr(immx, 32)), Shr(immx, 21) % 2048, Shr(immx, 10) % 2048)
  }

  lemma {:induction false} FieldSplit(x: int)
    ensures x == x / 0x800 * 0x800 + x % 0x800
  {
  }

  /** The fields of the long sequence, from the top word down to bit 10. */
  lemma {:induction false} LongFields(immx: nat)
    ensures LongNumber(Shr(immx, 32), Shr(immx, 21) % 2048, Shr(immx, 10) % 2048) == immx - immx % 1024
  {
    var m, l := Shr(immx, 21), Shr(immx, 10);
    assert Shr(immx, 32) == m / 0x800 by { ShrShr(immx, 21, 11); ShrConstants(m); }
    assert m == l / 0x800 by { ShrShr(immx, 10, 11); ShrConstants(l); }
    assert l == immx / 1024 by { ShrConstants(immx); }
    FieldSplit(m);
    FieldSplit(l);
  }

  /** The first lui/addi pair loads the top word, with its own carry. */
  lemma {:induction false} LongUpper(immx: int)
    ensures Shr(immx, 32) == (Shr(immx, 44) + Bit(immx, 43)) * 0x1000 + SextImm(Shr(immx, 32))
  {
    UpperSplit(Shr(immx, 32));
    ShrShr(immx, 32, 11);
    ShrShr(immx, 32, 12);
  }

  /** Shifting in one more field. */
  lemma {:induction false} ThenField(code: seq<Instr>, x: int, a: int, r: nat)
    requires r < W64 && Exec(code, r, W64) == x % W64
    ensures Exec(code + [Slli(11)] + [Addi(a)], r, W64) == (x * 2048 + a) % W64
  {
    ThenSlli(code, x, 11, r);
    assert Pow2(11) == 2048 by { Pow2Constants(); }
    ThenAddi(code + [Slli(11)], x * 2048, a, r);
  }

  lemma {:induction false} LongExec(h: int, i: int, a: int, b: int, r: nat)
    requires r < W64
    ensures Exec(LongForm(h, i, a, b), r, W64) == LongNumber(LuiValue(h % 0x10_0000) + i, a, b) % W64
  {
    var u := h % 0x10_0000;
    var y := LuiValue(u) + i;
    var c0 := [Lui(u), Addi(i)];
    var c1 := c0 + [Slli(11)] + [Addi(a)];
    LuiThenAddi(u, i, r, W64);
    ThenField(c0, y, a, r);
    ThenField(c1, y * 2048 + a, b, r);
    ThenSlli(c1 + [Slli(11)] + [Addi(b)], (y * 2048 + a) * 2048 + b, 10, r);
    assert Pow2(10) == 1024 by { Pow2Constants(); }
  }

  /** The wrap of the first lui is shifted out. */
  lemma {:induction false} LongExecUpper(x: int, h: int, i: int, a: int, b: int, r: nat)
    requires r < W64 && x == h * 0x1000 + i
    ensures Exec(LongForm(h, i, a, b), r, W64) == LongNumber(x, a, b) % W64
  {
    LongExec(h, i, a, b, r);
    var k := LuiValueCongruent(h);
    ModAddMultiple(LongNumber(LuiValue(h % 0x10_0000) + i, a, b), k, W64);
  }

  lemma {:induction false} DropLow(x: nat)
    requires x < W64
    ensures 0 <= x - x % 1024 < W64
  {
  }

  lemma {:induction false} SmallMod(n: int, v: int)
    requires n == v && 0 <= v < W64
    ensures n % W64 == v
  {
  }

  lemma {:induction false} LongExecValue(x: int, h: int, i: int, a: int, b: int, v: int, r: nat)
    requires r < W64 && x == h * 0x1000 + i && LongNumber(x, a, b) == v && 0 <= v < W64
    ensures Exec(LongForm(h, i, a, b), r, W64) == v
  {
    LongExecUpper(x, h, i, a, b, r);
    SmallMod(LongNumber(x, a, b), v);
  }

  lemma {:induction false} LongPrefixLoads(immx: int, h: int, i: int, a: int, b: int, x: int, v: int, r: nat)
    requires LongPrefix(immx) == LongForm(h, i, a, b)
    requires r < W64 && x == h * 0x1000 + i && LongNumber(x, a, b) == v && 0 <= v < W64
    ensures Exec(LongPrefix(immx), r, W64) == v
  {
    LongExecValue(x, h, i, a, b, v, r);
  }

  lemma {:induction false} LongLoads(immx: nat, v: nat, r: nat)
    requires r < W64 && v < W64 && v == immx - immx % 1024
    ensures Exec(LongPrefix(immx), r, W64) == v
  {
    var x, u := Shr(immx, 32), Shr(immx, 44) + Bit(immx, 43);
    var i, a, b := SextImm(x), Shr(immx, 21) % 2048, Shr(immx, 10) % 2048;
    assert x == u * 0x1000 + i by { LongUpper(immx); }
    assert LongNumber(x, a, b) == v by { LongFields(immx); }
    LongPrefixLoads(immx, u, i, a, b, x, v, r);
  }

  // ---------------------------------------------------------------------
  // The macro for XLEN == 64
  // ---------------------------------------------------------------------

  /**
    The two places where the header leaves room for the reader: whether line
    434 adds before it shifts (C) or shifts before it adds (GNU as), and
    whether a right shift of a symbol with bit 63 set fills with that bit.
   */
  datatype Reading = Reading(addFirst: bool, arithmeticShift: bool)

  /** immx with its sign made positive, and with its lowest bit made zero. */
  function Absimm(immx: nat): int { if Bit(immx, 63) == 1 then W64 - 1 - immx else immx }
  function Imme(immx: nat): int { if Bit(immx, 0) == 1 then W64 - 1 - immx else immx }

  /** The sum of line 434, read either way. */
  function WordGuard(absimm: int, cry: int, rd: Reading): int {
    if rd.addFirst then Shr(absimm + cry * 4096, 31) else absimm + Shr(cry * 4096, 31)
  }

  lemma {:induction false} TopBit(x: nat)
    requires x < W64
    ensures Bit(x, 63) == 1 <==> x >= W64 / 2
  {
    ShrRanges(x);
  }

  /** SEXT_IMM of a pattern within 2048 of the ends of the word range. */
  lemma {:induction false} SextShort(x: nat, w: nat)
    requires w == W32 || w == W64
    requires x < 2048 || w - 2048 <= x < w
    ensures SextImm(x) == if x < 2048 then x else x - w
  {
  }

  lemma {:induction false} ShortExec(immx: nat, xlen: nat, w: nat)
    requires w == W32 || w == W64
    requires immx < 2048 || w - 2048 <= immx < w
    ensures Loads([Li(SextImm(immx))], immx, xlen, w)
  {
  }

  lemma {:induction false} ShortLoads(immx: nat)
    requires immx < W64 && Shr(Absimm(immx), 11) == 0
    ensures Loads([Li(SextImm(immx))], immx, 64, W64)
  {
    TopBit(immx);
    ShrRanges(Absimm(immx));
    ShortExec(immx, 64, W64);
  }

  lemma {:induction false} LuiAddiAll(x: int, xlen: nat, w: nat)
    requires w == W32 || (w == W64 && LuiFits(Upper(x)))
    ensures Loads(LuiAddi(x), x % w, xlen, w)
  {
    forall r: nat | r < w ensures Exec(LuiAddi(x), r, w) == x % w { LuiAddiLoads(x, r, w); }
  }

  lemma {:induction false} WordFits(immx: nat, rd: Reading)
    requires immx < W64 && WordGuard(Absimm(immx), Bit(immx, 11), rd) == 0
    ensures LuiFits(Upper(immx))
  {
    var cry := Bit(immx, 11);
    assert 0 <= Absimm(immx) < W31 - cry * 4096 by {
      if rd.addFirst {
        ShrRanges(Absimm(immx) + cry * 4096);
      } else {
        ShrRanges(cry * 4096);
      }
    }
    TopBit(immx);
    ShrRanges(immx);
  }

  /** Everything the remaining branches use about the edges. */
  lemma {:induction false} EdgeFacts(immx: nat, e: Edges)
    requires immx < W64 && Shr(Absimm(immx), 11) != 0
    requires EdgesBelow(Imme(immx), 64, e)
    ensures e.fnd1 && 0 < e.edge1 < 64
    ensures !e.fnd2 ==> Imme(immx) == W64 - Pow2(e.edge1)
    ensures Imme(immx) == Shr(Imme(immx), e.edge1) * Pow2(e.edge1)
  {
    var imme := Imme(immx);
    assert Pow2(64) == W64 by { Pow2Constants(); }
    assert Low(imme, 64) == imme by { LowSmall(imme, 64); }
    assert imme != 0 by { NotShort(immx); }
    LowShr(imme, e.edge1);
  }

  lemma {:induction false} NotShort(immx: nat)
    requires immx < W64 && Shr(Absimm(immx), 11) != 0
    ensures Imme(immx) != 0
  {
    if Imme(immx) == 0 {
      TopBit(immx);
      ShrRanges(0);
      assert false;
    }
  }

  /** Loads what imme is, or its complement when imm was odd. */
  lemma {:induction false} MaskLoads(code: seq<Instr>, immx: nat)
    requires immx < W64 && |code| <= 7
    requires forall i | 0 <= i < |code| :: Encodable(code[i], 64)
    requires forall r: nat | r < W64 :: Exec(code, r, W64) == Imme(immx)
    ensures Loads(code + if Bit(immx, 0) == 1 then [XoriMinus1] else [], immx, 64, W64)
  {
    var all := code + if Bit(immx, 0) == 1 then [XoriMinus1] else [];
    forall r: nat | r < W64 ensures Exec(all, r, W64) == immx {
      if Bit(immx, 0) == 1 { ThenXori(code, r); } else { assert all == code; }
    }
  }

  lemma {:induction false} LeadingOnesLoads(immx: nat, n: nat)
    requires 0 < n < 64 && immx == W64 - Pow2(n)
    ensures Loads([Li(-1), Slli(n)], immx, 64, W64)
  {
    forall r: nat | r < W64 ensures Exec([Li(-1), Slli(n)], r, W64) == immx { LeadingOnes(n, r); }
  }

  lemma {:induction false} TrailingOnesLoads(immx: nat, n: nat)
    requires 0 < n < 64 && immx == Pow2(n) - 1
    ensures Loads([Li(-1), Srli(64 - n)], immx, 64, W64)
  {
    var code := [Li(-1), Srli(64 - n)];
    forall r: nat | r < W64 ensures Exec(code, r, W64) == immx { TrailingOnes(n, r); }
  }

  lemma {:induction false} SingleBitLoads(immx: nat, n: nat)
    requires immx < W64 && n < 64 && Imme(immx) == Pow2(n)
    ensures Loads([Li(1), Slli(n)] + if Bit(immx, 0) == 1 then [XoriMinus1] else [], immx, 64, W64)
  {
    forall r: nat | r < W64 ensures Exec([Li(1), Slli(n)], r, W64) == Pow2(n) { SingleBit(n, r); }
    MaskLoads([Li(1), Slli(n)], immx);
  }

  lemma {:induction false} BitRunLoads(immx: nat, lo: nat, hi: nat)
    requires immx < W64 && lo < hi < 64 && Imme(immx) == Pow2(hi) - Pow2(lo)
    ensures Loads([Li(-1), Srli(64 - (hi - lo)), Slli(lo)] + (if Bit(immx, 0) == 1 then [XoriMinus1] else []),
                  immx, 64, W64)
  {
    var code := [Li(-1), Srli(64 - (hi - lo)), Slli(lo)];
    assert code == [Li(-1), Srli(64 - (hi - lo))] + [Slli(lo)];
    forall r: nat | r < W64 ensures Exec(code, r, W64) == Pow2(hi) - Pow2(lo) { BitRun(lo, hi, r); }
    MaskLoads(code, immx);
  }

  /** immx as the shift sees it. */
  function Signed(immx: nat, rd: Reading): int {
    if rd.arithmeticShift && immx >= W64 / 2 then immx - W64 else immx
  }

  /** Shifting the trailing zeroes out and back in gives immx, under either shift. */
  lemma {:induction false} ShiftBack(immx: nat, n: nat, rd: Reading)
    requires immx < W64 && n < 64 && immx == Shr(immx, n) * Pow2(n)
    ensures (Shr(Signed(immx, rd), n) * Pow2(n)) % W64 == immx
  {
    var s := Signed(immx, rd);
    var q, c, p := Shr(immx, n), Pow2(64 - n), Pow2(n);
    assert c * p == W64 by { Pow2Split(n); }
    MulSub(q, c, p);
    ShrLowDivMod(s, n);
    if s == immx {
      ModSigned(immx, immx, W64);
    } else {
      DivModUnique(s, p, q - c, 0);
      ModSigned(s, immx, W64);
    }
  }

  lemma {:induction false} ShiftedShortLoads(immx: nat, x: int, n: nat)
    requires n < 64 && (x * Pow2(n)) % W64 == immx && Shr(x, 11) == 0
    ensures Loads([Li(SextImm(x)), Slli(n)], immx, 64, W64)
  {
    assert 0 <= x < 2048 by { ShrRanges(x); }
    assert SextImm(x) == x by { SextShort(x, W64); }
    var code := [Li(x), Slli(n)];
    forall r: nat | r < W64 ensures Exec(code, r, W64) == immx {
      ExecTwo(Li(x), Slli(n), r, W64);
      ModSigned(x, x, W64);
    }
  }

  lemma {:induction false} ShiftedWordLoads(immx: nat, x: int, n: nat)
    requires n < 64 && (x * Pow2(n)) % W64 == immx && Shr(x, 31) + Bit(x, 11) == 0
    ensures Loads(LuiAddi(x) + [Slli(n)], immx, 64, W64)
  {
    assert LuiFits(Upper(x)) by { ShrRanges(x); }
    forall r: nat | r < W64 ensures Exec(LuiAddi(x) + [Slli(n)], r, W64) == immx {
      LuiAddiLoads(x, r, W64);
      ThenSlli(LuiAddi(x), x, n, r);
    }
  }

  lemma {:induction false} LongFormExec(code: seq<Instr>, v: nat, low: nat, r: nat)
    requires r < W64 && Exec(code, r, W64) == v - low && 0 <= v - low <= v < W64
    ensures Exec(code + if low != 0 then [Addi(low)] else [], r, W64) == v
  {
    if low != 0 {
      ModSigned(v - low, v - low, W64);
      ThenAddi(code, v - low, low, r);
      ModSigned(v - low + low, v, W64);
    } else {
      assert code + [] == code;
    }
  }

  lemma {:induction false} LongFormLoads(immx: nat, low: nat)
    requires immx < W64 && low == immx % 1024
    ensures Loads(LongPrefix(immx) + if low != 0 then [Addi(low)] else [], immx, 64, W64)
  {
    var code := LongPrefix(immx) + if low != 0 then [Addi(low)] else [];
    assert forall i | 0 <= i < |code| :: Encodable(code[i], 64);
    DropLow(immx);
    forall r: nat | r < W64 ensures Exec(code, r, W64) == immx {
      LongLoads(immx, immx - low, r);
      LongFormExec(LongPrefix(immx), immx, low, r);
    }
  }

  /** The tests on imm itself read the same bits of immx. */
  lemma {:induction false} ImmLow(imm: int)
    ensures imm % 4096 == imm % W64 % 4096 && imm % 1024 == imm % W64 % 1024
    ensures Bit(imm, 0) == Bit(imm % W64, 0)
  {
    var q := imm / W64;
    ModAddMultiple(imm % W64, q * 0x10_0000_0000_0000, 4096);
    ModAddMultiple(imm % W64, q * 0x40_0000_0000_0000, 1024);
    ModAddMultiple(imm % W64, q * 0x8000_0000_0000_0000, 2);
  }

  /** The branches for constants that fit neither addi nor lui/addi, given the edges the scan has found. */
  function WideCode(immx: nat, rd: Reading, e: Edges): seq<Instr>
    requires immx < W64 && EdgesBelow(Imme(immx), 64, e) && e.fnd1
  {
    var imme, even := Imme(immx), Bit(immx, 0) == 0;
    var immxsh := Shr(Signed(immx, rd), e.edge1);
    var flip := if even then [] else [XoriMinus1];
    if !e.fnd2 then [Li(-1), if even then Slli(e.edge1) else Srli(64 - e.edge1)]
    else if imme == Pow2(e.edge1) then [Li(1), Slli(e.edge1)] + flip
    else if imme == Pow2(e.edge2) - Pow2(e.edge1) then
      [Li(-1), Srli(64 - (e.edge2 - e.edge1)), Slli(e.edge1)] + flip
    else if immx == imme && Shr(immxsh, 11) == 0 then [Li(SextImm(immxsh)), Slli(e.edge1)]
    else if immx == imme && Shr(immxsh, 31) + Bit(immxsh, 11) == 0 then LuiAddi(immxsh) + [Slli(e.edge1)]
    else LongPrefix(immx) + if immx % 1024 != 0 then [Addi(immx % 1024)] else []
  }

  method LiWide(immx: nat, even: bool, low10: nat, rd: Reading) returns (code: seq<Instr>, ghost e: Edges)
    requires immx < W64 && Shr(Absimm(immx), 11) != 0
    requires even == (Bit(immx, 0) == 0) && low10 == immx % 1024
    ensures Loads(code, immx, 64, W64)
    ensures EdgesBelow(Imme(immx), 64, e) && e.fnd1 && code == WideCode(immx, rd, e)
  {
    var imme := Imme(immx);
    var edges := ScanEdges(imme);
    e := edges;
    var immxsh := Shr(Signed(immx, rd), edges.edge1);
    EdgeFacts(immx, e);
    if even && !edges.fnd2 {
      code := [Li(-1), Slli(edges.edge1)];
      LeadingOnesLoads(immx, edges.edge1);
    } else if !even && !edges.fnd2 {
      code := [Li(-1), Srli(64 - edges.edge1)];
      TrailingOnesLoads(immx, edges.edge1);
    } else if imme == Pow2(edges.edge1) {
      code := [Li(1), Slli(edges.edge1)] + if !even then [XoriMinus1] else [];
      SingleBitLoads(immx, edges.edge1);
    } else if imme == Pow2(edges.edge2) - Pow2(edges.edge1) {
      code := [Li(-1), Srli(64 - (edges.edge2 - edges.edge1)), Slli(edges.edge1)] + if !even then [XoriMinus1] else [];
      BitRunLoads(immx, edges.edge1, edges.edge2);
    } else if immx == imme && Shr(immxsh, 11) == 0 {
      code := [Li(SextImm(immxsh)), Slli(edges.edge1)];
      ShiftBack(immx, edges.edge1, rd);
      ShiftedShortLoads(immx, immxsh, edges.edge1);
    } else if immx == imme && Shr(immxsh, 31) + Bit(immxsh, 11) == 0 {
      code := LuiAddi(immxsh) + [Slli(edges.edge1)];
      ShiftBack(immx, edges.edge1, rd);
      ShiftedWordLoads(immx, immxsh, edges.edge1);
    } else {
      code := LongPrefix(immx) + if low10 != 0 then [Addi(low10)] else [];
      LongFormLoads(immx, low10);
    }
  }

  lemma {:induction false} WordLoads(immx: nat, rd: Reading)
    requires immx < W64 && WordGuard(Absimm(immx), Bit(immx, 11), rd) == 0
    ensures Loads(LuiAddi(immx), immx, 64, W64)
  {
    WordFits(immx, rd);
    LuiAddiAll(immx, 64, W64);
    ModSigned(immx, immx, W64);
  }

  /** The code is the one the guards call for. */
  ghost predicate Chosen64(code: seq<Instr>, immx: nat, rd: Reading)
    requires immx < W64
  {
    if Shr(Absimm(immx), 11) == 0 then code == [Li(SextImm(immx))]
    else if WordGuard(Absimm(immx), Bit(immx, 11), rd) == 0 then code == LuiAddi(immx)
    else exists e :: EdgesBelow(Imme(immx), 64, e) && e.fnd1 && code == WideCode(immx, rd, e)
  }

  method Li64(imm: int, rd: Reading) returns (code: seq<Instr>)
    ensures Loads(code, imm % W64, 64, W64) && Chosen64(code, imm % W64, rd)
  {
    var immx := imm % W64;
    if Shr(Absimm(immx), 11) == 0 {
      code := [Li(SextImm(immx))];
      ShortLoads(immx);
    } else if WordGuard(Absimm(immx), Bit(immx, 11), rd) == 0 {
      code := LuiAddi(immx);
      WordLoads(immx, rd);
    } else {
      ImmLow(imm);
      ghost var e;
      code, e := LiWide(immx, Bit(imm, 0) == 0, imm % 1024, rd);
    }
  }

  // ---------------------------------------------------------------------
  // The macro for XLEN == 32
  // ---------------------------------------------------------------------

  function Absimm32(immx: nat): int { if Bit(immx, 31) == 1 then W32 - 1 - immx else immx }

  lemma {:induction false} TopBit32(x: nat)
    requires x < W32
    ensures Bit(x, 31) == 1 <==> x >= W31
  {
    ShrRanges(x);
  }

  lemma {:induction false} ShortLoads32(immx: nat)
    requires immx < W32 && Shr(Absimm32(immx), 11) == 0
    ensures Loads([Li(SextImm(immx))], immx, 32, W32)
  {
    TopBit32(immx);
    ShrRanges(Absimm32(immx));
    ShortExec(immx, 32, W32);
  }

  /** A 12-bit signed number is loaded by li, any other by lui and, unless its low bits are 0, addi. */
  ghost predicate Chosen32(code: seq<Instr>, immx: nat) {
    var short := immx < 2048 || W32 - 2048 <= immx;
    code != [] && (code[0].Li? <==> short) && |code| == if short || immx % 4096 == 0 then 1 else 2
  }

  lemma {:induction false} ShortIff32(immx: nat)
    requires immx < W32
    ensures Shr(Absimm32(immx), 11) == 0 <==> immx < 2048 || W32 - 2048 <= immx
  {
    TopBit32(immx);
    ShrRanges(Absimm32(immx));
  }

  method Li32(imm: int) returns (code: seq<Instr>)
    ensures Loads(code, imm % W32, 32, W32) && Chosen32(code, imm % W32)
  {
    var immx := imm % W32;
    var absimm := Absimm32(immx);
    ShortIff32(immx);
    if Shr(absimm, 11) == 0 {
      code := [Li(SextImm(immx))];
      ShortLoads32(immx);
    } else {
      code := LuiAddi(immx);
      LuiAddiAll(immx, 32, W32);
      ModSigned(immx, immx, W32);
    }
  }
}
