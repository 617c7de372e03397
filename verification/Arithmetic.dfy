/** Powers of two, shifts and remainders, shared by the bit-level modules. */
module Arithmetic {

  function Pow2(n: nat): (p: nat)
    ensures p > 0
  {
    if n == 0 then 1 else 2 * Pow2(n - 1)
  }

  /** x >> n: halve n times, rounding down. */
  function Shr(x: int, n: nat): (s: int)
    ensures x >= 0 ==> 0 <= s <= x
    ensures x < 0 ==> x <= s < 0
    decreases n, x
  {
    if n == 0 then x else Shr(x / 2, n - 1)
  }

  /** The low n bits of x. */
  function Low(x: int, n: nat): (l: nat)
    ensures l < Pow2(n)
    decreases n, x
  {
    if n == 0 then 0 else x % 2 + 2 * Low(x / 2, n - 1)
  }

  /** BIT(x, p). */
  function Bit(x: int, p: nat): (b: nat)
    ensures b <= 1
  {
    Shr(x, p) % 2
  }

  lemma {:induction false} LowStep(x: int, n: nat)
    ensures Low(x, n + 1) == Low(x, n) + if Bit(x, n) == 1 then Pow2(n) else 0
    decreases n
  {
    if n != 0 {
      LowStep(x / 2, n - 1);
      assert Low(x, n + 1) == x % 2 + 2 * Low(x / 2, n);
    }
  }

  lemma {:induction false} LowSmall(x: nat, n: nat)
    requires x < Pow2(n)
    ensures Low(x, n) == x
    decreases n
  {
    if n != 0 {
      LowSmall(x / 2, n - 1);
    }
  }

  lemma {:induction false} LowShr(x: int, n: nat)
    ensures x == Low(x, n) + Shr(x, n) * Pow2(n)
    decreases n
  {
    if n != 0 {
      LowShr(x / 2, n - 1);
      MulAssoc(Shr(x, n), 2, Pow2(n - 1));
      MulAssoc(2, Shr(x, n), Pow2(n - 1));
    }
  }

  /** Shifts and masks are division and remainder. */
  lemma {:induction false} ShrLowDivMod(x: int, n: nat)
    ensures Shr(x, n) == x / Pow2(n) && Low(x, n) == x % Pow2(n)
  {
    LowShr(x, n);
    DivModUnique(x, Pow2(n), Shr(x, n), Low(x, n));
  }

  lemma {:induction false} ShrShr(x: int, a: nat, b: nat)
    ensures Shr(Shr(x, a), b) == Shr(x, a + b)
    decreases a
  {
    if a != 0 {
      ShrShr(x / 2, a - 1, b);
    }
  }

  lemma {:induction false} Pow2Add(a: nat, b: nat)
    ensures Pow2(a + b) == Pow2(a) * Pow2(b)
    decreases a
  {
    if a != 0 {
      Pow2Add(a - 1, b);
      MulAssoc(2, Pow2(a - 1), Pow2(b));
    }
  }

  lemma {:induction false} Pow2Less(a: nat, b: nat)
    requires a < b
    ensures Pow2(a) < Pow2(b)
    decreases b
  {
    if a < b - 1 {
      Pow2Less(a, b - 1);
    }
  }

  lemma {:induction false} MulAssoc(a: int, b: int, c: int)
    ensures (a * b) * c == a * (b * c)
  {
  }

  lemma {:induction false} MulAtLeast(k: int, d: nat)
    requires k >= 1
    ensures k * d >= d
  {
  }

  lemma {:induction false} MulSub(a: int, b: int, d: int)
    ensures (a - b) * d == a * d - b * d
  {
  }

  /** Quotient and remainder are the only ones there are. */
  lemma {:induction false} DivModUnique(x: int, d: nat, q: int, m: nat)
    requires x == q * d + m && m < d
    ensures x / d == q && x % d == m
  {
    var q', m' := x / d, x % d;
    assert x == q' * d + m';
    if q' > q {
      MulAtLeast(q' - q, d);
      MulSub(q', q, d);
    } else if q' < q {
      MulAtLeast(q - q', d);
      MulSub(q, q', d);
    }
  }

  /** A number and its two's complement pattern agree modulo the word size. */
  lemma {:induction false} ModSigned(i: int, v: nat, w: nat)
    requires v < w && (i == v || i == v - w)
    ensures i % w == v
  {
  }

  lemma {:induction false} ModAddMultiple(x: int, k: int, d: nat)
    requires d > 0
    ensures (x + k * d) % d == x % d
  {
    var q, m := x / d, x % d;
    MulSub(q, -k, d);
    DivModUnique(x + k * d, d, q + k, m);
  }

  lemma {:induction false} ModAdd(a: int, b: int, d: nat)
    requires d > 0
    ensures (a % d + b) % d == (a + b) % d
  {
    ModAddMultiple(a % d + b, a / d, d);
  }

  lemma {:induction false} ModMul(a: int, b: nat, d: nat)
    requires d > 0
    ensures ((a % d) * b) % d == (a * b) % d
  {
    var q, m := a / d, a % d;
    assert a * b == m * b + (q * b) * d by {
      assert a == q * d + m;
      MulSub(q * d, -m, b);
      MulSub(0, m, b);
      MulAssoc(q, d, b);
      MulAssoc(q, b, d);
    }
    ModAddMultiple(m * b, q * b, d);
  }

  lemma {:induction false} Pow2Constants()
    ensures Pow2(10) == 0x400 && Pow2(11) == 0x800 && Pow2(12) == 0x1000
    ensures Pow2(21) == 0x20_0000 && Pow2(31) == 0x8000_0000 && Pow2(32) == 0x1_0000_0000
    ensures Pow2(63) == 0x8000_0000_0000_0000
    ensures Pow2(64) == 0x1_0000_0000_0000_0000
  {
    assert Pow2(10) == 0x400;
    Pow2Add(11, 10);
    Pow2Add(21, 10);
    Pow2Add(32, 31);
  }

  lemma {:induction false} ShrBy(x: int, n: nat, p: nat)
    requires p == Pow2(n)
    ensures Shr(x, n) == x / p && Low(x, n) == x % p
  {
    ShrLowDivMod(x, n);
  }

  lemma {:induction false} ShrConstants(x: int)
    ensures Shr(x, 10) == x / 0x400 && Shr(x, 11) == x / 0x800 && Shr(x, 12) == x / 0x1000
    ensures Shr(x, 31) == x / 0x8000_0000 && Shr(x, 63) == x / 0x8000_0000_0000_0000
  {
    Pow2Constants();
    ShrBy(x, 10, 0x400);
    ShrBy(x, 11, 0x800);
    ShrBy(x, 12, 0x1000);
    ShrBy(x, 31, 0x8000_0000);
    ShrBy(x, 63, 0x8000_0000_0000_0000);
  }

  lemma {:induction false} ShrRange(x: int, n: nat, p: nat)
    requires p == Pow2(n)
    ensures Shr(x, n) * p <= x < Shr(x, n) * p + p
  {
    LowShr(x, n);
  }

  /** The constant shifts again, as ranges rather than quotients. */
  lemma {:induction false} ShrRanges(x: int)
    ensures Shr(x, 11) * 0x800 <= x < Shr(x, 11) * 0x800 + 0x800
    ensures Shr(x, 12) * 0x1000 <= x < Shr(x, 12) * 0x1000 + 0x1000
    ensures Shr(x, 31) * 0x8000_0000 <= x < Shr(x, 31) * 0x8000_0000 + 0x8000_0000
    ensures Shr(x, 63) * 0x8000_0000_0000_0000 <= x < Shr(x, 63) * 0x8000_0000_0000_0000 + 0x8000_0000_0000_0000
  {
    Pow2Constants();
    ShrRange(x, 11, 0x800);
    ShrRange(x, 12, 0x1000);
    ShrRange(x, 31, 0x8000_0000);
    ShrRange(x, 63, 0x8000_0000_0000_0000);
  }
}
