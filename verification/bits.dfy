/** Rust's unsigned 16-bit word and the operators the emulator applies to it
    (`&`, `|`, `<<`, `>>`, `!`), written out over unbounded naturals.

    `BitAnd` and `BitOr` are defined one bit at a time, least significant bit
    first; the lemmas below connect them to ordinary arithmetic (`%` and `/`
    by powers of two), which is what the rest of the model reasons with. */
module Bits {

  /** A Rust `u8`. */
  type U8 = x: nat | x < 0x100

  /** A Rust `u16`. */
  type U16 = x: nat | x < 0x1_0000

  /** 2 to the power `k`. */
  function Pow2(k: nat): (r: nat)
    ensures r >= 1
  {
    if k == 0 then 1 else 2 * Pow2(k - 1)
  }

  /** Bitwise AND of two naturals. */
  function BitAnd(a: nat, b: nat): (r: nat)
    ensures r <= a && r <= b
    decreases a
  {
    if a == 0 || b == 0 then 0
    else 2 * BitAnd(a / 2, b / 2) + (if a % 2 == 1 && b % 2 == 1 then 1 else 0)
  }

  /** Bitwise OR of two naturals. */
  function BitOr(a: nat, b: nat): (r: nat)
    ensures a <= r && b <= r && r <= a + b
    decreases a + b
  {
    if a == 0 then b
    else if b == 0 then a
    else 2 * BitOr(a / 2, b / 2) + (if a % 2 == 1 || b % 2 == 1 then 1 else 0)
  }

  /** `v << s` on a `u16`: bits shifted past bit 15 are discarded. */
  function Shl16(v: U16, s: nat): (r: U16)
    requires s < 16
  {
    (v * Pow2(s)) % 0x1_0000
  }

  /** `v >> s` on a `u16`.  The quotient is at most `v`, so it would fit a
      `u16`; it is typed as a plain integer, and callers that need the bound
      prove it where they use it. */
  function Shr16(v: U16, s: nat): (r: int)
    requires s < 16
  {
    v / Pow2(s)
  }

  /** `!v` on a `u16`. */
  function Not16(v: U16): (r: U16)
  {
    0xFFFF - v
  }

  // ---------------------------------------------------------------------------
  // Arithmetic facts about division and remainder

  lemma MulNonNegative(a: int, b: int)
    requires a >= 0 && b >= 0
    ensures a * b >= 0
  {
  }

  lemma MulAssoc(a: int, b: int, c: int)
    ensures (a * b) * c == a * (b * c)
  {
  }

  lemma MulAtLeast(d: int, k: int)
    requires d > 0 && k >= 1
    ensures d * k >= d
  {
    MulNonNegative(d, k - 1);
    assert d * k == d * (k - 1) + d;
  }

  /** Quotient and remainder are determined by any decomposition `v == d*q + r`. */
  lemma DivModUnique(v: int, d: int, q: int, r: int)
    requires d > 0 && 0 <= r < d && v == d * q + r
    ensures v / d == q && v % d == r
  {
    var q', r' := v / d, v % d;
    assert v == d * q' + r';
    assert d * (q - q') == r' - r;
    if q > q' {
      MulAtLeast(d, q - q');
    } else if q < q' {
      assert d * (q' - q) == r - r';
      MulAtLeast(d, q' - q);
    }
  }

  /** A remainder by `m * n` splits into a remainder by `m` and the next digits. */
  lemma ModProduct(x: nat, m: nat, n: nat)
    requires m > 0 && n > 0
    ensures x % (m * n) == m * ((x / m) % n) + x % m
  {
    var q, r := x / m, x % m;
    var t, u := q / n, q % n;
    assert x == m * q + r;
    assert q == n * t + u;
    assert m * q == (m * n) * t + m * u by {
      assert m * q == m * (n * t + u);
      assert m * (n * t + u) == m * (n * t) + m * u;
      assert m * (n * t) == (m * n) * t;
    }
    assert m * u + r < m * n by {
      MulNonNegative(m, n - 1 - u);
      assert m * (n - 1 - u) == m * n - m - m * u;
    }
    MulNonNegative(m, u);
    DivModUnique(x, m * n, t, m * u + r);
  }

  /** Scaling both operands of `%` scales the remainder. */
  lemma ModScaled(p: nat, a: nat, b: nat)
    requires p > 0 && b > 0
    ensures (p * a) % (p * b) == p * (a % b)
  {
    var q, r := a / b, a % b;
    assert a == b * q + r;
    assert p * a == (p * b) * q + p * r by {
      assert p * a == p * (b * q) + p * r;
    }
    assert p * r < p * b by {
      assert p * b - p * r == p * (b - r);
    }
    DivModUnique(p * a, p * b, q, p * r);
  }

  /** Reducing by a multiple of `m` first does not change the remainder by `m`. */
  lemma ModMod(x: nat, m: nat, k: nat)
    requires m > 0 && k > 0
    ensures (x % (m * k)) % m == x % m
  {
    ModProduct(x, m, k);
    var c := (x / m) % k;
    DivModUnique(x % (m * k), m, c, x % m);
  }

  lemma {:induction false} Pow2Add(a: nat, b: nat)
    ensures Pow2(a + b) == Pow2(a) * Pow2(b)
    decreases a
  {
    if a > 0 {
      Pow2Add(a - 1, b);
      assert Pow2(a + b) == 2 * Pow2(a - 1 + b);
    }
  }

  /** The powers of two the emulator's widths use. */
  lemma Pow2Values()
    ensures Pow2(1) == 2 && Pow2(2) == 4 && Pow2(3) == 8 && Pow2(4) == 16
    ensures Pow2(5) == 32 && Pow2(6) == 64 && Pow2(7) == 128 && Pow2(8) == 0x100 && Pow2(9) == 0x200
    ensures Pow2(12) == 0x1000 && Pow2(15) == 0x8000 && Pow2(16) == 0x1_0000
  {
    assert Pow2(12) == 0x1000;
    assert Pow2(14) == 0x4000;
    assert Pow2(16) == 0x1_0000;
  }

  /** A number below the divisor is its own remainder. */
  lemma ModSmall(x: nat, m: nat)
    requires x < m
    ensures x % m == x && x / m == 0
  {
    DivModUnique(x, m, 0, x);
  }

  lemma {:induction false} Pow2Monotone(a: nat, b: nat)
    requires a <= b
    ensures Pow2(a) <= Pow2(b)
    decreases b
  {
    if a < b {
      Pow2Monotone(a, b - 1);
    }
  }

  // ---------------------------------------------------------------------------
  // Bitwise operators in arithmetic terms

  /** One step of `BitAnd` when the second operand `b` is `2m + low`. */
  lemma BitAndStep(v: nat, b: nat, m: nat, low: nat)
    requires v > 0 && low < 2 && b == 2 * m + low
    ensures BitAnd(v, b) == 2 * BitAnd(v / 2, m) + (if low == 1 then v % 2 else 0)
  {
    assert b / 2 == m && b % 2 == low;
    if b == 0 {
      assert m == 0;
      assert BitAnd(v / 2, m) == 0;
    }
  }

  /** The low `k` bits of `v`, one bit at a time. */
  function LowBits(v: nat, k: nat): (r: nat)
    decreases k
  {
    if k == 0 || v == 0 then 0 else 2 * LowBits(v / 2, k - 1) + v % 2
  }

  /** The low `k` bits are the remainder by `2^k`. */
  lemma {:induction false} LowBitsMod(v: nat, k: nat)
    ensures LowBits(v, k) == v % Pow2(k)
    decreases k
  {
    if k == 0 {
      DivModUnique(v, 1, v, 0);
    } else if v == 0 {
      ModSmall(v, Pow2(k));
    } else {
      var m := Pow2(k - 1);
      LowBitsMod(v / 2, k - 1);
      ModProduct(v, 2, m);
      assert Pow2(k) == 2 * m;
    }
  }

  /** ANDing with `2^k - 1` keeps the low `k` bits, counted one at a time. */
  lemma {:induction false} AndLowBits(v: nat, k: nat)
    ensures BitAnd(v, Pow2(k) - 1) == LowBits(v, k)
    decreases k
  {
    if k == 0 {
      assert BitAnd(v, 0) == 0;
    } else if v > 0 {
      AndLowBits(v / 2, k - 1);
      BitAndStep(v, Pow2(k) - 1, Pow2(k - 1) - 1, 1);
    }
  }

  /** ANDing with `2^k - 1` keeps the low `k` bits: it is the remainder by `2^k`. */
  lemma AndLowMask(v: nat, k: nat)
    ensures BitAnd(v, Pow2(k) - 1) == v % Pow2(k)
  {
    AndLowBits(v, k);
    LowBitsMod(v, k);
  }

  /** The inductive step of `AndBandBits`: the band of bits `s .. s+d-1`
      is twice the band of bits `s-1 .. s+d-2` of the halved number. */
  lemma AndBandStep(x: nat, s: nat, d: nat)
    requires s > 0 && x > 0
    requires BitAnd(x / 2, Pow2(s - 1) * (Pow2(d) - 1))
             == LowBits(x / 2, s - 1 + d) - LowBits(x / 2, s - 1)
    ensures BitAnd(x, Pow2(s) * (Pow2(d) - 1)) == LowBits(x, s + d) - LowBits(x, s)
  {
    var p, q := Pow2(s - 1), Pow2(d);
    assert Pow2(s) * (q - 1) == 2 * (p * (q - 1)) + 0 by {
      MulAssoc(2, p, q - 1);
    }
    BitAndStep(x, Pow2(s) * (q - 1), p * (q - 1), 0);
    assert LowBits(x, s + d) == 2 * LowBits(x / 2, s - 1 + d) + x % 2;
    assert LowBits(x, s) == 2 * LowBits(x / 2, s - 1) + x % 2;
  }

  /** ANDing with the mask of bits `s .. s+d-1` keeps the low `s + d` bits
      without the low `s`, counted one at a time. */
  lemma {:induction false} AndBandBits(x: nat, s: nat, d: nat)
    ensures BitAnd(x, Pow2(s) * (Pow2(d) - 1)) == LowBits(x, s + d) - LowBits(x, s)
    decreases s
  {
    if s == 0 {
      assert Pow2(s) == 1;
      assert Pow2(s) * (Pow2(d) - 1) == Pow2(d) - 1;
      AndLowBits(x, d);
      assert LowBits(x, s) == 0;
    } else if x == 0 {
      assert BitAnd(x, Pow2(s) * (Pow2(d) - 1)) == 0;
      assert LowBits(x, s + d) == 0 && LowBits(x, s) == 0;
    } else {
      AndBandBits(x / 2, s - 1, d);
      AndBandStep(x, s, d);
    }
  }

  /** ANDing with the mask of bits `s .. s+d-1` keeps exactly those bits. */
  lemma AndBandMask(x: nat, s: nat, d: nat)
    ensures BitAnd(x, Pow2(s) * (Pow2(d) - 1)) == x % Pow2(s + d) - x % Pow2(s)
  {
    AndBandBits(x, s, d);
    LowBitsMod(x, s + d);
    LowBitsMod(x, s);
  }

  /** ORing two numbers below `2^n` stays below `2^n`. */
  lemma {:induction false} OrBelowPow2(a: nat, b: nat, n: nat)
    requires a < Pow2(n) && b < Pow2(n)
    ensures BitOr(a, b) < Pow2(n)
    decreases n
  {
    if n > 0 && a > 0 && b > 0 {
      OrBelowPow2(a / 2, b / 2, n - 1);
    }
  }

  /** ORing a value into bits that are clear in the other operand is addition. */
  lemma {:induction false} OrDisjoint(hi: nat, lo: nat, s: nat)
    requires lo < Pow2(s)
    ensures BitOr(hi * Pow2(s), lo) == hi * Pow2(s) + lo
    decreases s
  {
    if s > 0 && hi > 0 && lo > 0 {
      var h := hi * Pow2(s);
      assert h == 2 * (hi * Pow2(s - 1));
      assert h / 2 == hi * Pow2(s - 1) && h % 2 == 0;
      OrDisjoint(hi, lo / 2, s - 1);
    }
  }
}
