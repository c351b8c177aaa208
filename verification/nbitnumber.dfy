/** `NBitNumber<N>`: an unsigned number of `N` bits stored in a `u16`.

    Rust fixes `N` in the type; here the width is a field of the value, and two
    numbers of the same Rust type are two values with equal `width`.  The
    stored `value` is masked to `width` bits only by `New` (and by `Clone`,
    which calls it): the struct's field is public and the derived `+` does not
    re-mask, so `Valid()` is a property of a value, not part of its type. */
module NBit {
  import opened Bits

  /** The widths modelled: `validate_bit_width` also admits 16, but then
      `(1 << N) - 1` overflows a `u16`. */
  type Width = n: nat | 1 <= n <= 15 witness 1

  /** The check `validate_bit_width` performs on `N`. */
  predicate ValidBitWidth(n: nat) {
    0 < n <= 16
  }

  datatype NBitNumber = NBitNumber(width: Width, value: U16) {
    /** The stored value fits in `width` bits. */
    predicate Valid() {
      value < Pow2(width)
    }
  }

  /** The 12-, 9- and 5-bit numbers the emulator names `u12`, `u9` and `u5`. */
  type U12 = x: NBitNumber | x.width == 12 witness NBitNumber(12, 0)
  type U9 = x: NBitNumber | x.width == 9 witness NBitNumber(9, 0)
  type U5 = x: NBitNumber | x.width == 5 witness NBitNumber(5, 0)

  lemma Pow2Below16(n: nat)
    requires n <= 15
    ensures Pow2(n) <= 0x8000
  {
    Pow2Monotone(n, 15);
    Pow2Values();
  }

  /** `(1 << n) - 1` computed in a `u16`. */
  function Mask(n: nat): (m: U16)
    requires n <= 15
  {
    Pow2Below16(n);
    Pow2(n) - 1
  }

  function Min(a: nat, b: nat): (m: nat) {
    if a <= b then a else b
  }

  /** `NBitNumber::<n>::new(v)`: keeps the low `n` bits of `v`. */
  function New(n: Width, v: U16): (r: NBitNumber)
    ensures r.width == n && r.Valid()
    ensures r.value == v % Pow2(n)
  {
    AndLowMask(v, n);
    NBitNumber(n, BitAnd(v, Mask(n)))
  }

  /** `get`, `as_u16` and `as_usize`: the stored value, unchanged. */
  function Get(x: NBitNumber): (v: U16) {
    x.value
  }

  function AsU16(x: NBitNumber): (v: U16) {
    x.value
  }

  function AsUsize(x: NBitNumber): (v: nat) {
    x.value
  }

  /** `NumberOperations::new()`: the number zero. */
  function Zero(n: Width): (r: NBitNumber)
    ensures r.width == n && r.Valid() && r.value == 0
  {
    New(n, 0)
  }

  /** `get_max()`: the all-ones number of width `n`. */
  function GetMax(n: Width): (r: NBitNumber)
    ensures r.width == n && r.Valid()
    ensures r.value == Pow2(n) - 1
  {
    Pow2Below16(n);
    ModSmall(Pow2(n) - 1, Pow2(n));
    New(n, Pow2(n) - 1)
  }

  /** `clone`: rebuilds the number through `new`, so it also re-masks. */
  function Clone(x: NBitNumber): (r: NBitNumber)
    ensures r.width == x.width && r.Valid()
    ensures r.value == x.value % Pow2(x.width)
    ensures x.Valid() ==> r == x
  {
    ModSmallIfValid(x);
    New(x.width, x.value)
  }

  /** `compare_lower_bits`: do the low `min(N, M)` bits of `a` and `b` agree? */
  function CompareLowerBits(a: NBitNumber, b: NBitNumber): (r: bool)
    ensures r <==> a.value % Pow2(Min(a.width, b.width)) == b.value % Pow2(Min(a.width, b.width))
  {
    var minBits := Min(a.width, b.width);
    var mask := Mask(minBits);
    AndLowMask(a.value, minBits);
    AndLowMask(b.value, minBits);
    BitAnd(a.value, mask) == BitAnd(b.value, mask)
  }

  /** `compare_upper_bits`: despite its name, its body is that of
      `compare_lower_bits`, so it also compares the low `min(N, M)` bits. */
  function CompareUpperBits(a: NBitNumber, b: NBitNumber): (r: bool)
    ensures r <==> a.value % Pow2(Min(a.width, b.width)) == b.value % Pow2(Min(a.width, b.width))
  {
    var minBits := Min(a.width, b.width);
    var mask := Mask(minBits);
    AndLowMask(a.value, minBits);
    AndLowMask(b.value, minBits);
    BitAnd(a.value, mask) == BitAnd(b.value, mask)
  }

  /** The derived `&`: ANDs the raw fields, without re-masking. */
  function And(a: NBitNumber, b: NBitNumber): (r: NBitNumber)
    requires a.width == b.width
    ensures r.width == a.width
    ensures r.value <= a.value && r.value <= b.value
    ensures a.Valid() || b.Valid() ==> r.Valid()
  {
    NBitNumber(a.width, BitAnd(a.value, b.value))
  }

  lemma OrKeepsWidth(a: NBitNumber, b: NBitNumber)
    requires a.width == b.width
    ensures BitOr(a.value, b.value) < 0x1_0000
    ensures a.Valid() && b.Valid() ==> BitOr(a.value, b.value) < Pow2(a.width)
  {
    Pow2Values();
    OrBelowPow2(a.value, b.value, 16);
    if a.Valid() && b.Valid() {
      OrBelowPow2(a.value, b.value, a.width);
    }
  }

  /** The derived `|`: ORs the raw fields, without re-masking. */
  function Or(a: NBitNumber, b: NBitNumber): (r: NBitNumber)
    requires a.width == b.width
    ensures r.width == a.width
    ensures a.value <= r.value && b.value <= r.value
    ensures a.Valid() && b.Valid() ==> r.Valid()
  {
    OrKeepsWidth(a, b);
    NBitNumber(a.width, BitOr(a.value, b.value))
  }

  /** The derived `+`: adds the raw fields without re-masking.  A `u16`
      overflow panics in Rust, so the sum must fit in 16 bits; it always does
      for two valid operands, since the width is at most 15. */
  function Add(a: NBitNumber, b: NBitNumber): (r: NBitNumber)
    requires a.width == b.width
    requires a.value + b.value < 0x1_0000
    ensures r.width == a.width
    ensures r.Valid() <==> a.value + b.value < Pow2(a.width)
    ensures r.value == a.value + b.value
  {
    NBitNumber(a.width, a.value + b.value)
  }

  // ---------------------------------------------------------------------------
  // Properties

  /** Every width of the model passes `validate_bit_width`, which rejects 0
      and anything above 16; the width 16 it also admits is outside the
      model. */
  lemma WidthsPassValidation(n: Width)
    ensures ValidBitWidth(n)
    ensures ValidBitWidth(16) && !ValidBitWidth(0) && !ValidBitWidth(17)
  {
  }

  /** Masking twice is masking once. */
  lemma NewIdempotent(n: Width, v: U16)
    ensures New(n, New(n, v).value) == New(n, v)
  {
    ModMod(v, Pow2(n), 1);
  }

  lemma ModSmallIfValid(x: NBitNumber)
    ensures x.Valid() ==> x.value % Pow2(x.width) == x.value
  {
    if x.Valid() {
      ModSmall(x.value, Pow2(x.width));
    }
  }

  /** Every number `new` builds is at most `get_max()`. */
  lemma NewAtMostMax(n: Width, v: U16)
    ensures New(n, v).value <= GetMax(n).value
  {
  }

  /** A valid number is rebuilt exactly from any of its accessors. */
  lemma AccessorsRoundTrip(x: NBitNumber)
    requires x.Valid()
    ensures AsU16(x) == Get(x) && AsUsize(x) == Get(x)
    ensures New(x.width, Get(x)) == x
  {
    ModSmallIfValid(x);
  }

  /** `compare_upper_bits` is `compare_lower_bits`. */
  lemma CompareUpperIsLower(a: NBitNumber, b: NBitNumber)
    ensures CompareUpperBits(a, b) == CompareLowerBits(a, b)
  {
  }

  /** `compare_lower_bits` is reflexive and symmetric. */
  lemma CompareLowerBitsEquivalence(a: NBitNumber, b: NBitNumber)
    ensures CompareLowerBits(a, a)
    ensures CompareLowerBits(a, b) == CompareLowerBits(b, a)
  {
  }

  /** Two valid numbers of the same width compare equal exactly when equal. */
  lemma CompareSameWidth(a: NBitNumber, b: NBitNumber)
    requires a.width == b.width && a.Valid() && b.Valid()
    ensures CompareLowerBits(a, b) <==> a == b
  {
    ModSmallIfValid(a);
    ModSmallIfValid(b);
  }

  /** `&` and `|` keep valid operands in range, while `+` can leave it: the
      9-bit sum 0x1FF + 1 is 0x200, which is why callers mask after adding. */
  lemma AddLeavesRange()
    ensures New(9, 0x1FF).Valid() && New(9, 1).Valid()
    ensures !Add(New(9, 0x1FF), New(9, 1)).Valid()
    ensures Add(New(9, 0x1FF), New(9, 1)).value == 0x200
  {
    assert Pow2(9) == 0x200;
  }

  /** Masking the raw sum afterwards gives addition modulo `2^N`. */
  lemma AddThenMaskWraps(a: NBitNumber, b: NBitNumber)
    requires a.width == b.width && a.Valid() && b.Valid()
    ensures a.value + b.value < 0x1_0000
    ensures New(a.width, Add(a, b).value).value == (a.value + b.value) % Pow2(a.width)
  {
    Pow2Below16(a.width);
  }
}
