/**
  Packing SIMD lanes into registers: riscv_ctg/dsp_function.py, with the reverse
  direction (`twos`, `sign_extend`) of riscv_ctg/constants.py.  The hexadecimal
  text of the values is not modelled; an instruction's entries hold integers.
 */
module LanePacking {
  import opened Arithmetic

  datatype Operand = Rs1 | Rs2 | Rd

  /** Entries of an instruction dictionary: rs1_b0_val, rs1_val, rs1_val_hi, rs1_val64. */
  datatype Key = Lane(op: Operand, size: char, i: nat) | Val(op: Operand) | ValHi(op: Operand) | Val64(op: Operand)

  /** A register name: its letter and its number. */
  datatype RegName = RegName(letter: char, num: nat)

  // ---------------------------------------------------------------------
  // The packed value
  // ---------------------------------------------------------------------

  /** A negative lane stands for its two's complement pattern. */
  function Pattern(v: int, w: nat): int {
    if v < 0 then v + Pow2(w) else v
  }

  /** Lane i starts at bit i * w. */
  function Start(i: nat, w: nat): nat {
    if i == 0 then 0 else Start(i - 1, w) + w
  }

  lemma {:induction false} StartIs(i: nat, w: nat)
    ensures Start(i, w) == i * w
  {
    if i > 0 {
      StartIs(i - 1, w);
      MulSub(i, 1, w);
    }
  }

  function Packed(lanes: seq<int>, w: nat): int {
    if lanes == [] then 0
    else Packed(lanes[..|lanes| - 1], w) + Pattern(lanes[|lanes| - 1], w) * Pow2(Start(|lanes| - 1, w))
  }

  /** Lanes as the datasets give them: signed or unsigned numbers of w bits. */
  ghost predicate InRange(lanes: seq<int>, w: nat) {
    forall i | 0 <= i < |lanes| :: 0 <= lanes[i] + Pow2(w) && lanes[i] < Pow2(w)
  }

  lemma {:induction false} RangePrefix(lanes: seq<int>, w: nat)
    requires lanes != [] && InRange(lanes, w)
    ensures InRange(lanes[..|lanes| - 1], w) && 0 <= Pattern(lanes[|lanes| - 1], w) < Pow2(w)
  {
  }

  lemma {:induction false} TimesBelow(u: nat, d: nat, p: nat, x: nat)
    requires u < d && x < p
    ensures 0 <= x + u * p < d * p
  {
    MulAtLeast(d - u, p);
    MulSub(d, u, p);
  }

  lemma {:induction false} PowerSplit(a: nat, b: nat, w: nat)
    requires a == b + w
    ensures Pow2(a) == Pow2(w) * Pow2(b)
  {
    Pow2Add(w, b);
  }

  lemma {:induction false} PackedBound(lanes: seq<int>, w: nat)
    requires InRange(lanes, w)
    ensures 0 <= Packed(lanes, w) < Pow2(Start(|lanes|, w))
  {
    if lanes != [] {
      var n := |lanes|;
      RangePrefix(lanes, w);
      PackedBound(lanes[..n - 1], w);
      PowerSplit(Start(n, w), Start(n - 1, w), w);
      TimesBelow(Pattern(lanes[n - 1], w), Pow2(w), Pow2(Start(n - 1, w)), Packed(lanes[..n - 1], w));
    }
  }

  /** Bits a to a + w of a number do not change when something is added above them. */
  lemma {:induction false} AddedAbove(x: int, k: int, a: nat, w: nat)
    ensures Low(Shr(x + k * Pow2(a + w), a), w) == Low(Shr(x, a), w)
  {
    var p, d := Pow2(a), Pow2(w);
    var q, m := x / p, x % p;
    Pow2Add(a, w);
    assert k * (p * d) == (k * d) * p by { MulAssoc(k, p, d); MulAssoc(k, d, p); }
    assert x + (k * d) * p == (q + k * d) * p + m by { MulSub(q, -(k * d), p); MulSub(0, k * d, p); }
    DivModUnique(x + (k * d) * p, p, q + k * d, m);
    ModAddMultiple(q, k, d);
    ShrLowDivMod(x, a);
    ShrLowDivMod(x + k * Pow2(a + w), a);
    ShrLowDivMod(q, w);
    ShrLowDivMod(q + k * d, w);
  }

  lemma {:induction false} TopLane(x: nat, u: nat, a: nat, w: nat)
    requires x < Pow2(a) && u < Pow2(w)
    ensures Low(Shr(x + u * Pow2(a), a), w) == u
  {
    DivModUnique(x + u * Pow2(a), Pow2(a), u, x);
    ShrLowDivMod(x + u * Pow2(a), a);
    LowSmall(u, w);
  }

  lemma {:induction false} LaterLane(x: int, u: nat, a: nat, w: nat, b: nat)
    requires b >= a + w
    ensures Low(Shr(x + u * Pow2(b), a), w) == Low(Shr(x, a), w)
  {
    var rest := b - (a + w);
    Pow2Add(rest, a + w);
    MulAssoc(u, Pow2(rest), Pow2(a + w));
    AddedAbove(x, u * Pow2(rest), a, w);
  }

  lemma {:induction false} Between(n: nat, i: nat, w: nat)
    requires i < n
    ensures Start(n, w) >= Start(i, w) + w
  {
    if i < n - 1 { Between(n - 1, i, w); }
  }

  /** Every lane's pattern is where it was put. */
  lemma {:induction false} LaneRecovered(lanes: seq<int>, w: nat, i: nat)
    requires InRange(lanes, w) && i < |lanes|
    ensures Low(Shr(Packed(lanes, w), Start(i, w)), w) == Pattern(lanes[i], w)
  {
    var n := |lanes|;
    var before, u := lanes[..n - 1], Pattern(lanes[n - 1], w);
    RangePrefix(lanes, w);
    PackedBound(before, w);
    if i == n - 1 {
      TopLane(Packed(before, w), u, Start(i, w), w);
    } else {
      LaneRecovered(before, w, i);
      Between(n - 1, i, w);
      LaterLane(Packed(before, w), u, Start(i, w), w, Start(n - 1, w));
    }
  }

  // ---------------------------------------------------------------------
  // Reading a pattern as a signed number
  // ---------------------------------------------------------------------

  /** `twos` on an integer. */
  function Twos(val: int, bits: nat): int
    requires bits > 0
  {
    if Bit(val, bits - 1) != 0 then val - Pow2(bits) else val
  }

  /** `sign_extend`; & with a mask of the low bits, and with the sign bit alone. */
  function SignExtend(value: int, bits: nat): int
    requires bits > 0
  {
    Low(value, bits - 1) - Bit(value, bits - 1) * Pow2(bits - 1)
  }

  lemma {:induction false} TopBit(v: nat, w: nat)
    requires w > 0 && v < Pow2(w)
    ensures Bit(v, w - 1) == 1 <==> v >= Pow2(w - 1)
    ensures v == Low(v, w - 1) + Bit(v, w - 1) * Pow2(w - 1)
  {
    LowStep(v, w - 1);
    LowSmall(v, w);
  }

  /** Both readings give a signed lane back, for just the lanes that are signed numbers of w bits. */
  lemma {:induction false} SignedLane(v: int, w: nat)
    requires w > 0 && 0 <= v + Pow2(w) && v < Pow2(w)
    ensures Twos(Pattern(v, w), w) == SignExtend(Pattern(v, w), w)
    ensures Twos(Pattern(v, w), w) == v <==> 0 <= v + Pow2(w - 1) && v < Pow2(w - 1)
  {
    TopBit(Pattern(v, w), w);
  }

  // ---------------------------------------------------------------------
  // Lanes by name
  // ---------------------------------------------------------------------

  function SizeLetter(width: nat): char {
    if width == 8 then 'b' else if width == 16 then 'h' else if width == 32 then 'w' else 'd'
  }

  /** `simd_val_vars`: the value variables of an operand. */
  method SimdValVars(op: Operand, xlen: nat, width: nat) returns (names: seq<Key>)
    requires width > 0
    ensures names == LaneNames(op, SizeLetter(width), xlen / width)
  {
    names := [];
    for i := 0 to xlen / width
      invariant names == LaneNames(op, SizeLetter(width), i)
    {
      names := names + [Lane(op, SizeLetter(width), i)];
    }
  }

  function LaneNames(op: Operand, size: char, n: nat): seq<Key> {
    seq(n, i requires 0 <= i < n => Lane(op, size, i))
  }

  ghost predicate HasLanes(fields: map<Key, int>, op: Operand, size: char, n: nat) {
    forall i: nat | i < n :: Lane(op, size, i) in fields
  }

  function Lanes(fields: map<Key, int>, op: Operand, size: char, n: nat): seq<int>
    requires HasLanes(fields, op, size, n)
  {
    seq(n, i requires 0 <= i < n => fields[Lane(op, size, i)])
  }

  lemma {:induction false} NamesAreRead(fields: map<Key, int>, op: Operand, size: char, n: nat)
    ensures HasLanes(fields, op, size, n) <==> forall k | k in LaneNames(op, size, n) :: k in fields
  {
    var names := LaneNames(op, size, n);
    forall i: nat | i < n ensures Lane(op, size, i) in names { assert names[i] == Lane(op, size, i); }
  }

  lemma {:induction false} LanesSnoc(fields: map<Key, int>, op: Operand, size: char, n: nat, w: nat)
    requires HasLanes(fields, op, size, n + 1)
    ensures Packed(Lanes(fields, op, size, n + 1), w)
         == Packed(Lanes(fields, op, size, n), w) + Pattern(fields[Lane(op, size, n)], w) * Pow2(n * w)
  {
    StartIs(n, w);
    assert Lanes(fields, op, size, n + 1)[..n] == Lanes(fields, op, size, n);
  }

  // ---------------------------------------------------------------------
  // Instructions
  // ---------------------------------------------------------------------

  /** What an operand's entry holds before packing: the pattern of a single value, or of its lanes. */
  function Whole(fields: map<Key, int>, op: Operand, width: nat, w: nat): int
    requires w > 0 && (Val(op) in fields || HasLanes(fields, op, SizeLetter(w), width / w))
  {
    if Val(op) in fields then Pattern(fields[Val(op)], w) else Packed(Lanes(fields, op, SizeLetter(w), width / w), w)
  }

  /** A single value's pattern, or every lane's at its place, lowest first and each under its own name. */
  lemma {:induction false} WholeIs(fields: map<Key, int>, op: Operand, width: nat, w: nat, i: nat)
    requires Readable(fields, op, width, w) && (Val(op) !in fields ==> i < width / w)
    requires Val(op) !in fields ==> InRange(Lanes(fields, op, SizeLetter(w), width / w), w)
    ensures Val(op) in fields ==>
              Whole(fields, op, width, w) == fields[Val(op)] + if fields[Val(op)] < 0 then Pow2(w) else 0
    ensures Val(op) !in fields ==>
              var lane := Lane(op, if w == 8 then 'b' else if w == 16 then 'h' else if w == 32 then 'w' else 'd', i);
              && lane in fields
              && Low(Shr(Whole(fields, op, width, w), i * w), w)
                 == fields[lane] + if fields[lane] < 0 then Pow2(w) else 0
  {
    if Val(op) !in fields {
      StartIs(i, w);
      LaneRecovered(Lanes(fields, op, SizeLetter(w), width / w), w, i);
    }
  }

  /** Whether the source finds what it reads. */
  ghost predicate Readable(fields: map<Key, int>, op: Operand, width: nat, w: nat) {
    w > 0 && (Val(op) in fields || HasLanes(fields, op, SizeLetter(w), width / w))
  }

  /** Packing an operand, if the instruction has it. */
  function Concatenated(fields: map<Key, int>, has: bool, op: Operand, width: nat, w: nat): map<Key, int>
    requires has ==> Readable(fields, op, width, w)
  {
    if has then fields[Val(op) := Whole(fields, op, width, w)] else fields
  }

  /** How many of the first n lanes are there before one is missing. */
  function RowLength(fields: map<Key, int>, op: Operand, size: char, n: nat): (c: nat)
    ensures c <= n && HasLanes(fields, op, size, c) && (c < n ==> Lane(op, size, c) !in fields)
  {
    if n == 0 then 0
    else
      var c := RowLength(fields, op, size, n - 1);
      if c == n - 1 && Lane(op, size, c) in fields then n else c
  }

  lemma {:induction false} RowIs(fields: map<Key, int>, op: Operand, size: char, n: nat, c: nat)
    requires c <= n && HasLanes(fields, op, size, c) && (c < n ==> Lane(op, size, c) !in fields)
    ensures RowLength(fields, op, size, n) == c
  {
  }

  /** rd is packed as far as it has lanes. */
  function RdConcatenated(fields: map<Key, int>, has: bool, width: nat, w: nat): map<Key, int>
    requires w > 0
  {
    if !has then fields
    else if Val(Rd) in fields then fields[Val(Rd) := Pattern(fields[Val(Rd)], w)]
    else
      var c := RowLength(fields, Rd, SizeLetter(w), width / w);
      fields[Val(Rd) := Packed(Lanes(fields, Rd, SizeLetter(w), c), w)]
  }

  /** Packing an operand and splitting it at 32 bits when it is wider than a register. */
  function Split(fields: map<Key, int>, has: bool, op: Operand, width: nat, w: nat, xlen: nat, profiled: bool)
      : map<Key, int>
    requires has ==> Readable(fields, op, width, w)
  {
    if !has then fields
    else
      var v := Whole(fields, op, width, w);
      Put(fields, op, width > xlen, width == 64 && profiled, v, Low(v, 32), Low(Shr(v, 32), 32))
  }

  /** The entries for a value and its two words. */
  function Put(fields: map<Key, int>, op: Operand, pair: bool, wide: bool, v: int, low: int, high: int): map<Key, int> {
    var f := if pair then fields[Val(op) := low][ValHi(op) := high] else fields[Val(op) := v];
    if wide then f[Val64(op) := v] else f
  }

  lemma {:induction false} PutOnly(fields: map<Key, int>, op: Operand, pair: bool, wide: bool, v: int, low: int,
                                   high: int)
    ensures var after := Put(fields, op, pair, wide, v, low, high);
            Only(op, fields, after) && HasEntries(after, op, pair, wide, v, low, high)
  {
  }

  /** Whether there is an entry named rd_val, rd_b0_val or the like. */
  predicate HasValue(fields: map<Key, int>, op: Operand) {
    exists k | k in fields :: k.op == op && (k.Val? || k.Lane?)
  }

  /** The operand's entries hold its packed value, in two words if it is a pair. */
  ghost predicate Holds(before: map<Key, int>, after: map<Key, int>, op: Operand, width: nat, w: nat, xlen: nat,
                        profiled: bool)
    requires Readable(before, op, width, w)
  {
    var v := Whole(before, op, width, w);
    HasEntries(after, op, width > xlen, width == 64 && profiled, v, Low(v, 32), Low(Shr(v, 32), 32))
  }

  ghost predicate HasEntries(after: map<Key, int>, op: Operand, pair: bool, wide: bool, v: int, low: int, high: int) {
    && Val(op) in after && (wide ==> Val64(op) in after && after[Val64(op)] == v)
    && if pair then after[Val(op)] == low && ValHi(op) in after && after[ValHi(op)] == high else after[Val(op)] == v
  }

  /** Entries of other operands are not touched. */
  ghost predicate Only(op: Operand, before: map<Key, int>, after: map<Key, int>) {
    && (forall k: Key | k.op != op :: k in before <==> k in after)
    && (forall k: Key | k.op != op && k in before && k in after :: before[k] == after[k])
  }

  lemma {:induction false} StillReadable(op: Operand, before: map<Key, int>, after: map<Key, int>, other: Operand,
                                         width: nat, w: nat)
    requires Only(op, before, after) && other != op
    ensures Readable(before, other, width, w) <==> Readable(after, other, width, w)
    ensures Readable(before, other, width, w) ==> Whole(after, other, width, w) == Whole(before, other, width, w)
  {
    if w > 0 {
      var n, size := width / w, SizeLetter(w);
      assert forall i: nat | i < n :: Lane(other, size, i).op == other;
      if HasLanes(before, other, size, n) {
        assert forall i: nat | i < n :: before[Lane(other, size, i)] == after[Lane(other, size, i)];
        assert Lanes(before, other, size, n) == Lanes(after, other, size, n);
      }
    }
  }

  lemma {:induction false} SameHasValue(op: Operand, before: map<Key, int>, after: map<Key, int>, other: Operand)
    requires Only(op, before, after) && other != op
    ensures HasValue(after, other) <==> HasValue(before, other)
  {
  }

  lemma {:induction false} SplitIs(fields: map<Key, int>, op: Operand, width: nat, w: nat, xlen: nat, profiled: bool,
                                   v: int)
    requires Readable(fields, op, width, w) && v == Whole(fields, op, width, w)
    ensures Split(fields, true, op, width, w, xlen, profiled)
         == Put(fields, op, width > xlen, width == 64 && profiled, v, Low(v, 32), Low(Shr(v, 32), 32))
  {
  }

  lemma {:induction false} HoldsIs(before: map<Key, int>, after: map<Key, int>, op: Operand, width: nat, w: nat,
                                   xlen: nat, profiled: bool, v: int, lo: int, hi: int)
    requires Readable(before, op, width, w) && v == Whole(before, op, width, w)
    requires HasEntries(after, op, width > xlen, width == 64 && profiled, v, lo, hi)
    ensures lo == Low(v, 32) && hi == Low(Shr(v, 32), 32) ==> Holds(before, after, op, width, w, xlen, profiled)
  {
  }

  lemma {:induction false} SplitHolds(fields: map<Key, int>, has: bool, op: Operand, width: nat, w: nat, xlen: nat,
                                      profiled: bool)
    requires has ==> Readable(fields, op, width, w)
    ensures var after := Split(fields, has, op, width, w, xlen, profiled);
            Only(op, fields, after) && (has ==> Holds(fields, after, op, width, w, xlen, profiled))
  {
    if has {
      var v := Whole(fields, op, width, w);
      var after := Split(fields, has, op, width, w, xlen, profiled);
      SplitIs(fields, op, width, w, xlen, profiled, v);
      PutOnly(fields, op, width > xlen, width == 64 && profiled, v, Low(v, 32), Low(Shr(v, 32), 32));
      HoldsIs(fields, after, op, width, w, xlen, profiled, v, Low(v, 32), Low(Shr(v, 32), 32));
    }
  }

  class Instruction {
    var fields: map<Key, int>
    var regs: map<Operand, RegName>
    var highRegs: map<Operand, RegName>

    constructor (fields: map<Key, int>, regs: map<Operand, RegName>)
      ensures this.fields == fields && this.regs == regs && highRegs == map[]
    {
      this.fields, this.regs, highRegs := fields, regs, map[];
    }

    method Accumulate(op: Operand, width: nat, w: nat) returns (acc: int)
      requires Readable(fields, op, width, w)
      ensures acc == Whole(fields, op, width, w)
    {
      if Val(op) in fields {
        acc := fields[Val(op)];
        if acc < 0 {
          acc := acc + Pow2(w);
        }
      } else {
        acc := 0;
        var size := SizeLetter(w);
        for i := 0 to width / w
          invariant acc == Packed(Lanes(fields, op, size, i), w)
        {
          LanesSnoc(fields, op, size, i, w);
          var val := fields[Lane(op, size, i)];
          if val < 0 {
            val := val + Pow2(w);
          }
          acc := acc + val * Pow2(i * w);
        }
      }
    }

    /** One operand of `gen_pair_reg_data`. */
    method SplitPair(op: Operand, width: nat, w: nat, xlen: nat, profiled: bool)
      requires op in regs && Readable(fields, op, width, w)
      modifies this
      ensures regs == old(regs) && fields == Split(old(fields), true, op, width, w, xlen, profiled)
      ensures highRegs == if width > xlen then old(highRegs)[op := RegName(regs[op].letter, regs[op].num + 1)]
                          else old(highRegs)
    {
      SplitValue(op, width, w, xlen, profiled);
      if width > xlen {
        highRegs := highRegs[op := NextReg(regs[op])];
      }
    }

    method SplitValue(op: Operand, width: nat, w: nat, xlen: nat, profiled: bool)
      requires Readable(fields, op, width, w)
      modifies this`fields
      ensures fields == Split(old(fields), true, op, width, w, xlen, profiled)
    {
      var v := Accumulate(op, width, w);
      SplitIs(fields, op, width, w, xlen, profiled, v);
      PutWords(op, width > xlen, width == 64 && profiled, v);
    }

    /** The entries of a value: in two words for a pair. */
    method PutWords(op: Operand, pair: bool, wide: bool, v: int)
      modifies this`fields
      ensures fields == Put(old(fields), op, pair, wide, v, Low(v, 32), Low(Shr(v, 32), 32))
    {
      if pair {
        fields := fields[Val(op) := Low(v, 32)][ValHi(op) := Low(Shr(v, 32), 32)];
      } else {
        fields := fields[Val(op) := v];
      }
      if wide {
        fields := fields[Val64(op) := v];
      }
    }

    /** `gen_pair_reg_data` on the source operands: each packed and split as if it were the only one. */
    method SplitSources(width1: nat, w1: nat, width2: nat, w2: nat, xlen: nat, profiled: bool)
      requires (Rs1 in regs ==> Readable(fields, Rs1, width1, w1))
               && (Rs2 in regs ==> Readable(fields, Rs2, width2, w2))
      modifies this
      ensures regs == old(regs)
      ensures var f1 := Split(old(fields), Rs1 in regs, Rs1, width1, w1, xlen, profiled);
              && (Rs2 in regs ==>
                    Readable(f1, Rs2, width2, w2) && Whole(f1, Rs2, width2, w2) == Whole(old(fields), Rs2, width2, w2))
              && fields == Split(f1, Rs2 in regs, Rs2, width2, w2, xlen, profiled)
      ensures highRegs == Highs(Highs(old(highRegs), regs, Rs1, width1 > xlen), regs, Rs2, width2 > xlen)
    {
      ghost var f0 := fields;
      if Rs1 in regs {
        SplitPair(Rs1, width1, w1, xlen, profiled);
      }
      StillReadable(Rs1, f0, fields, Rs2, width2, w2);
      if Rs2 in regs {
        SplitPair(Rs2, width2, w2, xlen, profiled);
      }
    }

    /** `gen_pair_reg_data` on rd: a pair always gets its upper register, a value is split only where rd has one. */
    method SplitRd(width: nat, w: nat, xlen: nat, profiled: bool)
      requires Rd in regs && HasValue(fields, Rd) ==> Readable(fields, Rd, width, w)
      modifies this
      ensures regs == old(regs)
      ensures fields == Split(old(fields), Rd in regs && HasValue(old(fields), Rd), Rd, width, w, xlen, profiled)
      ensures highRegs == if Rd in regs && width > xlen then
                            old(highRegs)[Rd := RegName(regs[Rd].letter, regs[Rd].num + 1)]
                          else old(highRegs)
    {
      if Rd in regs {
        if width > xlen {
          highRegs := highRegs[Rd := NextReg(regs[Rd])];
        }
        if HasValue(fields, Rd) {
          SplitPair(Rd, width, w, xlen, profiled);
        }
      }
    }

    /** `gen_pair_reg_data`; rd is laid out in the lanes of rs2. */
    method GenPairRegData(width1: nat, w1: nat, width2: nat, w2: nat, rdWidth: nat, xlen: nat, profiled: bool)
      requires (Rs1 in regs ==> Readable(fields, Rs1, width1, w1))
               && (Rs2 in regs ==> Readable(fields, Rs2, width2, w2))
      requires Rd in regs && HasValue(fields, Rd) ==> Readable(fields, Rd, rdWidth, w2)
      modifies this
      ensures HighsHold(old(highRegs), highRegs, regs, width1 > xlen, width2 > xlen, rdWidth > xlen)
      ensures regs == old(regs)
      ensures PairsHeld(old(fields), fields, regs, width1, w1, width2, w2, rdWidth, xlen, profiled)
    {
      ghost var f0, h0 := fields, highRegs;
      SplitSources(width1, w1, width2, w2, xlen, profiled);
      ghost var f2 := fields;
      ghost var f1 := Split(f0, Rs1 in regs, Rs1, width1, w1, xlen, profiled);
      AllHold(f0, f1, f2, regs, width1, w1, width2, w2, rdWidth, xlen, profiled);
      SplitRd(rdWidth, w2, xlen, profiled);
      HighsAre(h0, regs, width1 > xlen, width2 > xlen, rdWidth > xlen);
    }

    /** One operand of `concat_simd_data`. */
    method Concat(op: Operand, width: nat, w: nat)
      requires Readable(fields, op, width, w)
      modifies this`fields
      ensures fields == old(fields)[Val(op) := Whole(old(fields), op, width, w)]
    {
      var v := Accumulate(op, width, w);
      fields := fields[Val(op) := v];
    }

    /** rd is only read as far as it has lanes. */
    method AccumulateRd(width: nat, w: nat) returns (acc: int, count: nat)
      requires w > 0
      ensures count == RowLength(fields, Rd, SizeLetter(w), width / w)
      ensures acc == Packed(Lanes(fields, Rd, SizeLetter(w), count), w)
    {
      acc, count := 0, 0;
      var size := SizeLetter(w);
      while count < width / w && Lane(Rd, size, count) in fields
        invariant count <= width / w && HasLanes(fields, Rd, size, count)
        invariant acc == Packed(Lanes(fields, Rd, size, count), w)
      {
        LanesSnoc(fields, Rd, size, count, w);
        var val := fields[Lane(Rd, size, count)];
        if val < 0 {
          val := val + Pow2(w);
        }
        acc := acc + val * Pow2(count * w);
        count := count + 1;
      }
      RowIs(fields, Rd, size, width / w, count);
    }

    /** `concat_simd_data`; rd is laid out in the lanes of rs1. */
    method ConcatSimdData(xlen: nat, w1: nat, w2: nat)
      requires w1 > 0 && w2 > 0
      requires (Rs1 in regs ==> Readable(fields, Rs1, xlen, w1)) && (Rs2 in regs ==> Readable(fields, Rs2, xlen, w2))
      modifies this`fields
      ensures var f1 := Concatenated(old(fields), Rs1 in regs, Rs1, xlen, w1);
              && (Rs2 in regs ==>
                    Readable(f1, Rs2, xlen, w2) && Whole(f1, Rs2, xlen, w2) == Whole(old(fields), Rs2, xlen, w2))
              && fields == RdConcatenated(Concatenated(f1, Rs2 in regs, Rs2, xlen, w2), Rd in regs, xlen, w1)
    {
      ghost var f0 := fields;
      if Rs1 in regs {
        Concat(Rs1, xlen, w1);
      }
      StillReadable(Rs1, f0, fields, Rs2, xlen, w2);
      if Rs2 in regs {
        Concat(Rs2, xlen, w2);
      }
      if Rd in regs {
        if Val(Rd) in fields {
          Concat(Rd, xlen, w1);
        } else {
          var rd, count := AccumulateRd(xlen, w1);
          fields := fields[Val(Rd) := rd];
        }
      }
    }
  }

  /** An operand that is a pair has the next register as its upper one, any other what it had. */
  ghost predicate HighIs(before: map<Operand, RegName>, after: map<Operand, RegName>, op: Operand, low: RegName,
                         pair: bool) {
    if pair then op in after && after[op].letter == low.letter && after[op].num == low.num + 1
    else (op in after <==> op in before) && (op in after ==> after[op] == before[op])
  }

  /** Each operand's entries hold its own packed value. */
  ghost predicate PairsHeld(f0: map<Key, int>, f: map<Key, int>, regs: map<Operand, RegName>, width1: nat, w1: nat,
                            width2: nat, w2: nat, rdWidth: nat, xlen: nat, profiled: bool)
    requires (Rs1 in regs ==> Readable(f0, Rs1, width1, w1)) && (Rs2 in regs ==> Readable(f0, Rs2, width2, w2))
    requires Rd in regs && HasValue(f0, Rd) ==> Readable(f0, Rd, rdWidth, w2)
  {
    && (Rs1 in regs ==> Holds(f0, f, Rs1, width1, w1, xlen, profiled))
    && (Rs2 in regs ==> Holds(f0, f, Rs2, width2, w2, xlen, profiled))
    && (Rd in regs && HasValue(f0, Rd) ==> Holds(f0, f, Rd, rdWidth, w2, xlen, profiled))
  }

  /** Splitting the operands one after the other leaves each as if it were the only one. */
  lemma {:induction false} AllHold(f0: map<Key, int>, f1: map<Key, int>, f2: map<Key, int>,
                                   regs: map<Operand, RegName>, width1: nat, w1: nat, width2: nat, w2: nat,
                                   rdWidth: nat, xlen: nat, profiled: bool)
    requires (Rs1 in regs ==> Readable(f0, Rs1, width1, w1)) && (Rs2 in regs ==> Readable(f0, Rs2, width2, w2))
    requires Rd in regs && HasValue(f0, Rd) ==> Readable(f0, Rd, rdWidth, w2)
    requires f1 == Split(f0, Rs1 in regs, Rs1, width1, w1, xlen, profiled)
    requires Rs2 in regs ==>
               Readable(f1, Rs2, width2, w2) && Whole(f1, Rs2, width2, w2) == Whole(f0, Rs2, width2, w2)
    requires f2 == Split(f1, Rs2 in regs, Rs2, width2, w2, xlen, profiled)
    ensures Rd in regs && HasValue(f2, Rd) ==> Readable(f2, Rd, rdWidth, w2)
    ensures PairsHeld(f0, Split(f2, Rd in regs && HasValue(f2, Rd), Rd, rdWidth, w2, xlen, profiled), regs,
                      width1, w1, width2, w2, rdWidth, xlen, profiled)
  {
    SplitHolds(f0, Rs1 in regs, Rs1, width1, w1, xlen, profiled);
    SplitHolds(f1, Rs2 in regs, Rs2, width2, w2, xlen, profiled);
    StillReadable(Rs1, f0, f1, Rd, rdWidth, w2);
    StillReadable(Rs2, f1, f2, Rd, rdWidth, w2);
    SameHasValue(Rs1, f0, f1, Rd);
    SameHasValue(Rs2, f1, f2, Rd);
    SplitHolds(f2, Rd in regs && HasValue(f2, Rd), Rd, rdWidth, w2, xlen, profiled);
  }

  ghost predicate HighsHold(before: map<Operand, RegName>, after: map<Operand, RegName>, regs: map<Operand, RegName>,
                            pair1: bool, pair2: bool, pairD: bool) {
    && (Rs1 in regs ==> HighIs(before, after, Rs1, regs[Rs1], pair1))
    && (Rs2 in regs ==> HighIs(before, after, Rs2, regs[Rs2], pair2))
    && (Rd in regs ==> HighIs(before, after, Rd, regs[Rd], pairD))
  }

  lemma {:induction false} HighsAre(before: map<Operand, RegName>, regs: map<Operand, RegName>, pair1: bool,
                                    pair2: bool, pairD: bool)
    ensures HighsHold(before, Highs(Highs(Highs(before, regs, Rs1, pair1), regs, Rs2, pair2), regs, Rd, pairD),
                      regs, pair1, pair2, pairD)
  {
  }

  /** The upper register of an operand that is a pair. */
  function Highs(high: map<Operand, RegName>, regs: map<Operand, RegName>, op: Operand, pair: bool)
      : map<Operand, RegName> {
    if op in regs && pair then high[op := NextReg(regs[op])] else high
  }

  /** `incr_reg_num`. */
  function NextReg(r: RegName): RegName {
    RegName(r.letter, r.num + 1)
  }

  /** The low and high words of a value, half bits each. */
  ghost predicate Words(v: int, low: int, high: int, half: nat) {
    0 <= low < Pow2(half) && 0 <= high < Pow2(half) && v == low + high * Pow2(half)
  }

  lemma {:induction false} PairRecombines(v: nat, half: nat)
    requires v < Pow2(half + half)
    ensures Words(v, Low(v, half), Low(Shr(v, half), half), half)
  {
    LowShr(v, half);
    Pow2Add(half, half);
    HighHalf(v, Shr(v, half), Pow2(half));
    LowSmall(Shr(v, half), half);
  }

  lemma {:induction false} HighHalf(v: nat, high: nat, p: nat)
    requires v < p * p && v >= high * p
    ensures high < p
  {
  }

  lemma {:induction false} LanesFit(n: nat, w: nat, all: nat)
    requires w > 0 && n == all / w
    ensures Pow2(Start(n, w)) <= Pow2(all)
  {
    StartIs(n, w);
    assert n * w <= all;
    if Start(n, w) < all { Pow2Less(Start(n, w), all); }
  }

  lemma {:induction false} HalvesHoldLanes(lanes: seq<int>, w: nat, half: nat)
    requires w > 0 && |lanes| == (half + half) / w && InRange(lanes, w)
    ensures Words(Packed(lanes, w), Low(Packed(lanes, w), half), Low(Shr(Packed(lanes, w), half), half), half)
  {
    PackedBound(lanes, w);
    LanesFit(|lanes|, w, half + half);
    PairRecombines(Packed(lanes, w), half);
  }

  /** On RV32 the two words of a pair hold the 64-bit packed value, and through it every lane. */
  lemma {:induction false} PairHoldsLanes(lanes: seq<int>, w: nat, half: nat)
    requires half == 32 && w > 0 && |lanes| == (half + half) / w && InRange(lanes, w)
    ensures Words(Packed(lanes, w), Low(Packed(lanes, w), half), Low(Shr(Packed(lanes, w), half), half), half)
    ensures forall i | 0 <= i < |lanes| :: Low(Shr(Packed(lanes, w), Start(i, w)), w) == Pattern(lanes[i], w)
  {
    HalvesHoldLanes(lanes, w, half);
    forall i | 0 <= i < |lanes| ensures Low(Shr(Packed(lanes, w), Start(i, w)), w) == Pattern(lanes[i], w) {
      LaneRecovered(lanes, w, i);
    }
  }
}
