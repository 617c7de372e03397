/**
  Floating-point fields: `extract_frs_fields` and `nan_box` of riscv_ctg/helpers.py
  put a word together from its sign, exponent and mantissa, through text; the
  filters of riscv_ctg/function_generators.py take a word apart again, by slices
  of its binary text.
 */
module FloatFields {
  import opened Arithmetic

  // ---------------------------------------------------------------------
  // Numbers as text
  // ---------------------------------------------------------------------

  datatype Base = Binary | Hex

  function Radix(base: Base): nat {
    if base.Binary? then 2 else 16
  }

  function Scaled(x: nat, base: Base): nat {
    if base.Binary? then 2 * x else 16 * x
  }

  function Quotient(v: nat, base: Base): nat {
    if base.Binary? then v / 2 else v / 16
  }

  function Remainder(v: nat, base: Base): nat {
    if base.Binary? then v % 2 else v % 16
  }

  /** The shortest text of v in a base; digits are their own values. */
  function Digits(v: nat, base: Base): (s: seq<nat>)
    ensures |s| > 0
    decreases v
  {
    if v < Radix(base) then [v] else Digits(Quotient(v, base), base) + [Remainder(v, base)]
  }

  function Zeros(n: nat): (s: seq<nat>)
    ensures |s| == n && forall i | 0 <= i < n :: s[i] == 0
  {
    seq(n, _ => 0)
  }

  /** Formatting to a width: padded with zeros, but never cut. */
  function Text(v: nat, base: Base, width: nat): (s: seq<nat>)
    ensures |s| >= width
  {
    var s := Digits(v, base);
    if |s| < width then Zeros(width - |s|) + s else s
  }

  /** `int(s, base)`. */
  function Number(s: seq<nat>, base: Base): nat {
    if s == [] then 0 else Scaled(Number(s[..|s| - 1], base), base) + s[|s| - 1]
  }

  ghost predicate Proper(s: seq<nat>, base: Base) {
    forall i | 0 <= i < |s| :: s[i] < Radix(base)
  }

  lemma {:induction false} NumberSnoc(s: seq<nat>, d: nat, base: Base)
    ensures Number(s + [d], base) == Scaled(Number(s, base), base) + d
    ensures Proper(s, base) && d < Radix(base) ==> Proper(s + [d], base)
  {
  }

  lemma {:induction false} DigitsNumber(v: nat, base: Base)
    ensures Number(Digits(v, base), base) == v && Proper(Digits(v, base), base)
    decreases v
  {
    if v < Radix(base) {
      NumberSnoc([], v, base);
      assert [] + [v] == [v];
    } else {
      var q, d := Quotient(v, base), Remainder(v, base);
      DigitsNumber(q, base);
      NumberSnoc(Digits(q, base), d, base);
    }
  }

  lemma {:induction false} ZerosNumber(n: nat, s: seq<nat>, base: Base)
    ensures Number(Zeros(n) + s, base) == Number(s, base)
    decreases |s|, n
  {
    if s != [] {
      assert (Zeros(n) + s)[..n + |s| - 1] == Zeros(n) + s[..|s| - 1];
      ZerosNumber(n, s[..|s| - 1], base);
    } else if n > 0 {
      assert Zeros(n) + s == Zeros(n) && Zeros(n)[..n - 1] == Zeros(n - 1) && Zeros(n - 1) + [] == Zeros(n - 1);
      ZerosNumber(n - 1, [], base);
    }
  }

  /** Reading what was formatted gives the number back, at any width and in any base. */
  lemma {:induction false} TextNumber(v: nat, base: Base, width: nat)
    ensures Number(Text(v, base, width), base) == v && Proper(Text(v, base, width), base)
  {
    DigitsNumber(v, base);
    var s := Digits(v, base);
    if |s| < width { ZerosNumber(width - |s|, s, base); }
  }

  lemma {:induction false} Doubled(x: nat, p: nat)
    ensures x * (2 * p) == 2 * (x * p)
  {
  }

  lemma {:induction false} NumberJoin(a: seq<nat>, b: seq<nat>)
    ensures Number(a + b, Binary) == Number(a, Binary) * Pow2(|b|) + Number(b, Binary)
    decreases |b|
  {
    if b == [] {
      assert a + b == a;
    } else {
      var b' := b[..|b| - 1];
      assert (a + b)[..|a + b| - 1] == a + b';
      NumberJoin(a, b');
      Doubled(Number(a, Binary), Pow2(|b'|));
    }
  }

  lemma {:induction false} NumberBound(s: seq<nat>)
    requires Proper(s, Binary)
    ensures Number(s, Binary) < Pow2(|s|)
  {
    if s != [] { NumberBound(s[..|s| - 1]); }
  }

  /** Binary text of a length is told by its number. */
  lemma {:induction false} SameText(s: seq<nat>, t: seq<nat>)
    requires Proper(s, Binary) && Proper(t, Binary) && |s| == |t| && Number(s, Binary) == Number(t, Binary)
    ensures s == t
  {
    if s != [] {
      var n := |s| - 1;
      assert s[n] == t[n] && Number(s[..n], Binary) == Number(t[..n], Binary);
      SameText(s[..n], t[..n]);
      assert s == s[..n] + [s[n]] && t == t[..n] + [t[n]];
    }
  }

  /** The shortest binary text of a number that needs it has no leading zero. */
  lemma {:induction false} DigitsLength(v: nat, width: nat)
    requires width > 0
    ensures |Digits(v, Binary)| <= width <==> v < Pow2(width)
    ensures v > 0 ==> Digits(v, Binary)[0] == 1
    decreases v
  {
    if v >= 2 {
      if width > 1 {
        DigitsLength(v / 2, width - 1);
      } else {
        DigitsLength(v / 2, 1);
        assert Pow2(1) == 2 by { assert Pow2(0) == 1; }
      }
      assert v / 2 < Pow2(width - 1) <==> v < Pow2(width);
    } else {
      assert Pow2(width) >= 2 by { assert Pow2(width) == 2 * Pow2(width - 1); }
    }
  }

  lemma {:induction false} TextLength(v: nat, width: nat)
    requires width > 0
    ensures |Text(v, Binary, width)| == width <==> v < Pow2(width)
    ensures |Text(v, Binary, width)| > width ==> Text(v, Binary, width)[0] == 1
  {
    DigitsLength(v, width);
  }

  // ---------------------------------------------------------------------
  // Merging and splitting
  // ---------------------------------------------------------------------

  datatype Fields = Fields(s: nat, e: nat, m: nat)

  /** Exponent and mantissa sizes of a format: section 3.4 of IEEE 754-2019. */
  datatype Format = Format(eSize: nat, mSize: nat)

  function FormatOf(iflen: nat): Format {
    if iflen == 16 then Format(5, 10) else if iflen == 32 then Format(8, 23) else Format(11, 52)
  }

  ghost predicate Sized(f: Format) {
    f.eSize > 0 && f.mSize > 0
  }

  /** `extract_frs_fields`, from the field values: binary text, a number, hexadecimal text, a number. */
  method ExtractFrsFields(x: Fields, iflen: nat) returns (word: nat)
    ensures word == Merged(x, FormatOf(iflen))
  {
    var f := FormatOf(iflen);
    var binary := Text(x.s, Binary, 1) + Text(x.e, Binary, f.eSize) + Text(x.m, Binary, f.mSize);
    var hex := Text(Number(binary, Binary), Hex, iflen / 4);
    TextNumber(Number(binary, Binary), Hex, iflen / 4);
    word := Number(hex, Hex);
  }

  function Merged(x: Fields, f: Format): nat {
    Number(Text(x.s, Binary, 1) + Text(x.e, Binary, f.eSize) + Text(x.m, Binary, f.mSize), Binary)
  }

  /** Sign, exponent and mantissa fill the word; 1.0 is the biased exponent alone. */
  lemma {:induction false} FormatIs(iflen: nat)
    requires iflen == 16 || iflen == 32 || iflen == 64
    ensures 1 + FormatOf(iflen).eSize + FormatOf(iflen).mSize == iflen
    ensures Merged(Fields(0, if iflen == 16 then 15 else if iflen == 32 then 127 else 1023, 0), FormatOf(iflen))
         == if iflen == 16 then 0x3c00 else if iflen == 32 then 0x3f80_0000 else 0x3ff0_0000_0000_0000
    ensures Merged(Fields(1, 0, 1), FormatOf(iflen))
         == if iflen == 16 then 0x8001 else if iflen == 32 then 0x8000_0001 else 0x8000_0000_0000_0001
  {
    Powers();
    MergedIs(Fields(0, if iflen == 16 then 15 else if iflen == 32 then 127 else 1023, 0), FormatOf(iflen));
    MergedIs(Fields(1, 0, 1), FormatOf(iflen));
  }

  lemma {:induction false} Powers()
    ensures Pow2(5) == 32 && Pow2(8) == 256 && Pow2(10) == 1024 && Pow2(11) == 2048 && Pow2(23) == 0x80_0000
    ensures Pow2(52) == 0x10_0000_0000_0000
  {
    Pow2Constants();
    SmallPowers();
    Pow2Add(12, 11);
    Pow2Add(21, 31);
  }

  lemma {:induction false} SmallPowers()
    ensures Pow2(5) == 32 && Pow2(8) == 256
  {
    assert Pow2(4) == 16;
    Pow2Add(4, 4);
  }

  /** The slices [0], [1:1+e] and [1+e:] of the binary text. */
  function Sliced(word: nat, f: Format): Fields {
    var t := Text(word, Binary, 1 + f.eSize + f.mSize);
    Fields(Number(t[..1], Binary), Number(t[1..1 + f.eSize], Binary), Number(t[1 + f.eSize..], Binary))
  }

  ghost predicate InRange(x: Fields, f: Format) {
    x.s <= 1 && x.e < Pow2(f.eSize) && x.m < Pow2(f.mSize)
  }

  /** A merged word is its fields side by side. */
  lemma {:induction false} MergedIs(x: Fields, f: Format)
    requires Sized(f) && InRange(x, f)
    ensures Merged(x, f) == (x.s * Pow2(f.eSize) + x.e) * Pow2(f.mSize) + x.m < Pow2(1 + f.eSize + f.mSize)
  {
    var s, e, m := Text(x.s, Binary, 1), Text(x.e, Binary, f.eSize), Text(x.m, Binary, f.mSize);
    Parts(x, f);
    NumberJoin(s, e);
    NumberJoin(s + e, m);
    NumberBound(s + e + m);
  }

  lemma {:induction false} Parts(x: Fields, f: Format)
    requires Sized(f) && x.s <= 1 && x.e < Pow2(f.eSize)
    ensures |Text(x.s, Binary, 1)| == 1 && |Text(x.e, Binary, f.eSize)| == f.eSize
    ensures x.m < Pow2(f.mSize) <==> |Text(x.m, Binary, f.mSize)| == f.mSize
    ensures Proper(Text(x.s, Binary, 1) + Text(x.e, Binary, f.eSize) + Text(x.m, Binary, f.mSize), Binary)
    ensures Number(Text(x.s, Binary, 1), Binary) == x.s && Number(Text(x.e, Binary, f.eSize), Binary) == x.e
            && Number(Text(x.m, Binary, f.mSize), Binary) == x.m
  {
    assert x.s < Pow2(1) by { assert Pow2(1) == 2 * Pow2(0); }
    TextLength(x.s, 1);
    TextLength(x.e, f.eSize);
    TextLength(x.m, f.mSize);
    TextNumber(x.s, Binary, 1);
    TextNumber(x.e, Binary, f.eSize);
    TextNumber(x.m, Binary, f.mSize);
  }

  /** Taking a merged word apart gives its fields back. */
  lemma {:induction false} SplitMerged(x: Fields, f: Format)
    requires Sized(f) && InRange(x, f)
    ensures Sliced(Merged(x, f), f) == x
  {
    var s, e, m := Text(x.s, Binary, 1), Text(x.e, Binary, f.eSize), Text(x.m, Binary, f.mSize);
    var n, word := 1 + f.eSize + f.mSize, Merged(x, f);
    Parts(x, f);
    NumberBound(s + e + m);
    TextLength(word, n);
    TextNumber(word, Binary, n);
    SameText(Text(word, Binary, n), s + e + m);
    Cuts(s, e, m);
  }

  lemma {:induction false} Cuts(s: seq<nat>, e: seq<nat>, m: seq<nat>)
    requires |s| == 1
    ensures var t := s + e + m; t[..1] == s && t[1..1 + |e|] == e && t[1 + |e|..] == m
  {
  }

  lemma {:induction false} Rewritten(t: seq<nat>)
    requires |t| > 0 && Proper(t, Binary)
    ensures Text(Number(t, Binary), Binary, |t|) == t
  {
    NumberBound(t);
    TextLength(Number(t, Binary), |t|);
    TextNumber(Number(t, Binary), Binary, |t|);
    SameText(Text(Number(t, Binary), Binary, |t|), t);
  }

  lemma {:induction false} Remerged(s: seq<nat>, e: seq<nat>, m: seq<nat>, f: Format)
    requires |s| == 1 && |e| == f.eSize && |m| == f.mSize && Sized(f) && Proper(s, Binary) && Proper(e, Binary)
             && Proper(m, Binary)
    ensures var x := Fields(Number(s, Binary), Number(e, Binary), Number(m, Binary));
            Merged(x, f) == Number(s + e + m, Binary) && InRange(x, f)
  {
    Rewritten(s);
    Rewritten(e);
    Rewritten(m);
    NumberBound(s);
    NumberBound(e);
    NumberBound(m);
    assert Pow2(1) == 2 by { assert Pow2(0) == 1; }
  }

  lemma {:induction false} Recut(t: seq<nat>, e: nat, m: nat)
    requires |t| == 1 + e + m
    ensures t == t[..1] + t[1..1 + e] + t[1 + e..] && |t[1..1 + e]| == e && |t[1 + e..]| == m
    ensures Proper(t, Binary) ==> Proper(t[..1], Binary) && Proper(t[1..1 + e], Binary) && Proper(t[1 + e..], Binary)
  {
  }

  /** Merging what a word was taken apart into gives the word back. */
  lemma {:induction false} MergeSliced(word: nat, f: Format)
    requires Sized(f) && word < Pow2(1 + f.eSize + f.mSize)
    ensures Merged(Sliced(word, f), f) == word && InRange(Sliced(word, f), f)
  {
    var n := 1 + f.eSize + f.mSize;
    var t := Text(word, Binary, n);
    TextLength(word, n);
    TextNumber(word, Binary, n);
    Recut(t, f.eSize, f.mSize);
    Remerged(t[..1], t[1..1 + f.eSize], t[1 + f.eSize..], f);
  }

  lemma {:induction false} NumberOne()
    ensures Number([1], Binary) == 1
  {
  }

  lemma {:induction false} LeadingOneBound(t: seq<nat>)
    requires |t| > 0 && t[0] == 1
    ensures Number(t, Binary) >= Pow2(|t| - 1)
  {
    NumberJoin([1], t[1..]);
    NumberOne();
    assert t == [1] + t[1..];
  }

  lemma {:induction false} LeadingOne(t: seq<nat>)
    requires |t| > 0 && Proper(t, Binary) && t[0] == 1
    ensures Digits(Number(t, Binary), Binary) == t
  {
    var v := Number(t, Binary);
    LeadingOneBound(t);
    NumberBound(t);
    DigitsLength(v, |t|);
    if |t| > 1 { DigitsLength(v, |t| - 1); }
    DigitsNumber(v, Binary);
    SameText(Digits(v, Binary), t);
  }

  /**
    Fields out of range: the text is not cut, so a mantissa that is too long
    survives behind a set sign bit.  The round trip holds just for these.
   */
  lemma {:induction false} SplitMergedIff(x: Fields, f: Format)
    requires Sized(f)
    ensures Sliced(Merged(x, f), f) == x <==> x.s <= 1 && x.e < Pow2(f.eSize) && (x.m < Pow2(f.mSize) || x.s == 1)
  {
    if x.s <= 1 && x.e < Pow2(f.eSize) && (x.m < Pow2(f.mSize) || x.s == 1) {
      if x.m < Pow2(f.mSize) { SplitMerged(x, f); } else { LongMantissa(x, f); }
    } else {
      SlicedShape(Merged(x, f), f);
    }
  }

  lemma {:induction false} LongMantissa(x: Fields, f: Format)
    requires Sized(f) && x.s == 1 && x.e < Pow2(f.eSize) && x.m >= Pow2(f.mSize)
    ensures Sliced(Merged(x, f), f) == x
  {
    var s, e, m := Text(x.s, Binary, 1), Text(x.e, Binary, f.eSize), Text(x.m, Binary, f.mSize);
    Parts(x, f);
    assert s == [1] by { Rewritten([1]); NumberOne(); }
    LeadingOne(s + e + m);
    Cuts(s, e, m);
  }

  lemma {:induction false} SlicedShape(word: nat, f: Format)
    requires Sized(f)
    ensures var x := Sliced(word, f); x.s <= 1 && x.e < Pow2(f.eSize) && (x.m >= Pow2(f.mSize) ==> x.s == 1)
  {
    var n := 1 + f.eSize + f.mSize;
    var t := Text(word, Binary, n);
    TextLength(word, n);
    TextNumber(word, Binary, n);
    NumberBound(t[..1]);
    NumberBound(t[1..1 + f.eSize]);
    NumberBound(t[1 + f.eSize..]);
    assert Pow2(1) == 2 by { assert Pow2(0) == 1; }
    assert Number(t[..1], Binary) == t[0] by { NumberSnoc([], t[0], Binary); assert [] + [t[0]] == t[..1]; }
  }

  // ---------------------------------------------------------------------
  // NaN boxing
  // ---------------------------------------------------------------------

  function Or(a: nat, b: nat): nat {
    if a == 0 && b == 0 then 0 else (if a % 2 == 1 || b % 2 == 1 then 1 else 0) + 2 * Or(a / 2, b / 2)
  }

  /** n bits, all one. */
  function Ones(n: nat): nat {
    Pow2(n) - 1
  }

  /** `nan_box`: the value and its width; an all-ones prefix stays implicit. */
  function NanBox(prefix: nat, rs: nat, flen: nat, iflen: nat): (nat, nat)
    requires iflen <= flen
  {
    if prefix == Ones(flen - iflen) then (rs, iflen) else (Or(rs, prefix * Pow2(iflen)), flen)
  }

  lemma {:induction false} OrZero(b: nat)
    ensures Or(0, b) == b
  {
    if b > 0 { OrZero(b / 2); }
  }

  lemma {:induction false} OrAbove(a: nat, b: nat, n: nat)
    requires a < Pow2(n)
    ensures Or(a, b * Pow2(n)) == a + b * Pow2(n)
    decreases n
  {
    if n == 0 {
      OrZero(b);
    } else {
      var c := b * Pow2(n - 1);
      assert b * Pow2(n) == 2 * c by { MulAssoc(b, 2, Pow2(n - 1)); MulAssoc(2, b, Pow2(n - 1)); }
      OrAbove(a / 2, b, n - 1);
      assert (2 * c) / 2 == c;
    }
  }

  /** What a register of flen bits holds of a boxed value: an implicit prefix is all ones. */
  function Register(boxed: (nat, nat), flen: nat): nat
    requires boxed.1 <= flen
  {
    boxed.0 + Ones(flen - boxed.1) * Pow2(boxed.1)
  }

  lemma {:induction false} FullWord(word: nat, flen: nat)
    ensures Register((word, flen), flen) == word
  {
  }

  lemma {:induction false} BoxedWord(prefix: nat, rs: nat, flen: nat, iflen: nat)
    requires iflen <= flen && rs < Pow2(iflen)
    ensures Register(NanBox(prefix, rs, flen, iflen), flen) == rs + prefix * Pow2(iflen)
  {
    if prefix != Ones(flen - iflen) {
      OrAbove(rs, prefix, iflen);
      FullWord(rs + prefix * Pow2(iflen), flen);
    }
  }

  /** Boxed either way, the register holds the value below its prefix. */
  lemma {:induction false} BoxHolds(prefix: nat, rs: nat, flen: nat, iflen: nat)
    requires iflen <= flen && rs < Pow2(iflen)
    ensures Low(Register(NanBox(prefix, rs, flen, iflen), flen), iflen) == rs
    ensures Shr(Register(NanBox(prefix, rs, flen, iflen), flen), iflen) == prefix
  {
    var word := Register(NanBox(prefix, rs, flen, iflen), flen);
    BoxedWord(prefix, rs, flen, iflen);
    ShrLowDivMod(word, iflen);
    DivModUnique(word, Pow2(iflen), prefix, rs);
  }
}
