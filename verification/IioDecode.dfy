/** The integer conversion of print2byte_mag and print2byte_acc, and its inverse. */
module IioDecode {
  import opened Arith
  import opened Common
  import opened IioSort

  // ----- 16-bit arithmetic

  lemma Doubled(a: nat, b: nat)
    ensures 2 * (a * b) == (2 * a) * b
  {
  }

  lemma {:induction false} Pow2Sum(m: nat, n: nat)
    ensures Pow2(m + n) == Pow2(m) * Pow2(n)
  {
    if m == 0 {
      assert 1 * Pow2(n) == Pow2(n);
    } else {
      Pow2Sum(m - 1, n);
      Doubled(Pow2(m - 1), Pow2(n));
    }
  }

  lemma Pow2Sixteen()
    ensures Pow2(16) == 0x1_0000
  {
    assert Pow2(4) == 16;
    assert Pow2(8) == 256;
    assert Pow2(12) == 4096;
  }

  function ToInt16(x: int): int {
    if x % 0x1_0000 < 0x8000 then x % 0x1_0000 else x % 0x1_0000 - 0x1_0000
  }

  /** bits_used and shift as the type string of a 2-byte channel may give them. */
  predicate FieldFits(info: Channel) {
    1 <= info.bits_used && info.bits_used + info.shift <= 16
  }

  function SwapBytes(w: u16): u16 {
    w % 256 * 256 + w / 256
  }

  /** Shift, mask and sign extension, with the int16_t conversions spelled out. */
  function Field(info: Channel, word: u16): int
    requires info.bits_used <= 16
  {
    var input, modulus := word / Pow2(info.shift), Pow2(info.bits_used);
    if info.is_signed then
      var val := ToInt16(ToInt16(input) % modulus);
      var left := Pow2(16 - info.bits_used);
      ToInt16(val * left) / left
    else
      input % modulus
  }

  /** The integer conversion of print2byte, on the word loaded from the buffer. */
  function Decode(info: Channel, loaded: u16): int
    requires info.bits_used <= 16
  {
    Field(info, if info.be then SwapBytes(loaded) else loaded)
  }

  /** The values a field can hold. */
  predicate InRange(info: Channel, v: int)
    requires FieldFits(info)
  {
    if info.is_signed then 0 - Pow2(info.bits_used - 1) <= v < Pow2(info.bits_used - 1)
    else 0 <= v < Pow2(info.bits_used)
  }

  /** A word whose field, at the given shift, holds the low bits of v; the other bits are
      those of fill. */
  function Insert(info: Channel, fill: u16, v: int): int
    requires FieldFits(info)
  {
    var low, field := Pow2(info.shift), Pow2(info.bits_used);
    fill / (low * field) * (low * field) + v % field * low + fill % low
  }

  // ----- a field read back

  lemma InsertFits(info: Channel, fill: u16, v: int)
    requires FieldFits(info)
    ensures 0 <= Insert(info, fill, v) < 0x1_0000
  {
    Products(info);
    InsertBound(v, fill, Pow2(16 - info.shift - info.bits_used), Pow2(info.bits_used), Pow2(info.shift));
  }

  lemma Products(info: Channel)
    requires FieldFits(info)
    ensures (Pow2(info.shift) * Pow2(info.bits_used)) * Pow2(16 - info.shift - info.bits_used) == 0x1_0000
  {
    Pow2Sixteen();
    Pow2Sum(info.shift, info.bits_used);
    Pow2Sum(info.shift + info.bits_used, 16 - info.shift - info.bits_used);
  }

  lemma InsertBound(v: int, fill: u16, rest: nat, field: nat, low: nat)
    requires field > 0 && low > 0 && (low * field) * rest == 0x1_0000
    ensures low * field > 0
    ensures 0 <= fill / (low * field) * (low * field) + v % field * low + fill % low < 0x1_0000
  {
    ThreeParts(v % field, fill % low, rest, field, low, fill);
    var hi, mid := fill / (low * field), v % field;
    MulMono(low, 0, mid);
    MulMono(low * field, 0, hi);
  }

  lemma ThreeParts(mid: nat, lo: nat, rest: nat, field: nat, low: nat, fill: nat)
    requires field > 0 && low > 0 && mid < field && lo < low
    requires fill < (low * field) * rest
    ensures low * field > 0 && fill / (low * field) * (low * field) + mid * low + lo < (low * field) * rest
  {
    var unit := low * field;
    MulAtLeast(low, field);
    QuotientBelow(fill, unit, rest);
    var hi := fill / unit;
    MulMono(low, mid, field - 1);
    assert low * (field - 1) == unit - low;
    MulMono(unit, hi + 1, rest);
    assert unit * (hi + 1) == unit * hi + unit;
  }

  /** Shifting and masking an inserted word gives the low bits of the value. */
  lemma FieldOf(info: Channel, fill: u16, v: int)
    requires FieldFits(info)
    ensures Insert(info, fill, v) / Pow2(info.shift) % Pow2(info.bits_used) == v % Pow2(info.bits_used)
  {
    MiddlePart(fill, v, Pow2(info.bits_used), Pow2(info.shift));
  }

  lemma MiddlePart(fill: nat, v: int, field: nat, low: nat)
    requires field > 0 && low > 0
    ensures low * field > 0
    ensures (fill / (low * field) * (low * field) + v % field * low + fill % low) / low % field == v % field
  {
    MulAtLeast(low, field);
    var unit := low * field;
    ShiftAndMask(fill / unit, v % field, fill % low, field, low);
  }

  lemma ShiftAndMask(hi: nat, mid: nat, lo: nat, field: nat, low: nat)
    requires field > 0 && low > 0 && mid < field && lo < low
    ensures (hi * (low * field) + mid * low + lo) / low % field == mid
  {
    var q := hi * field + mid;
    assert hi * (low * field) + mid * low + lo == low * q + lo by {
      assert hi * (low * field) == low * (hi * field);
    }
    DivModUnique(hi * (low * field) + mid * low + lo, low, q, lo);
    DivModUnique(q, field, hi, mid);
  }

  /** Reducing to 16 bits first makes no difference below a power of two that divides 2^16. */
  lemma ModOfInt16(x: int, bits: nat)
    requires bits <= 16
    ensures ToInt16(x) % Pow2(bits) == x % Pow2(bits)
  {
    Pow2Sixteen();
    Pow2Sum(bits, 16 - bits);
    var q := Wraps(x);
    SameRemainder(x, ToInt16(x), Pow2(bits), Pow2(16 - bits), q);
  }

  lemma Wraps(x: int) returns (q: int)
    ensures x == ToInt16(x) + 0x1_0000 * q
  {
    q := if x % 0x1_0000 < 0x8000 then x / 0x1_0000 else x / 0x1_0000 + 1;
  }

  /** Moving a field to the top of an int16_t and back extends its sign. */
  lemma SignExtension(bits: nat, f: nat)
    requires 1 <= bits <= 16 && f < Pow2(bits)
    ensures var left := Pow2(16 - bits);
            ToInt16(ToInt16(f) * left) / left == if f < Pow2(bits - 1) then f else f - Pow2(bits)
  {
    var left, half := Pow2(16 - bits), Pow2(bits - 1);
    HalfTimesLeft(bits);
    Pow2Bound(bits);
    ExtendsSign(f, if f < half then f else f - 2 * half, half, left);
  }

  lemma HalfTimesLeft(bits: nat)
    requires 1 <= bits <= 16
    ensures Pow2(bits) == 2 * Pow2(bits - 1) && Pow2(bits - 1) * Pow2(16 - bits) == 0x8000
  {
    Pow2Sixteen();
    Pow2Sum(bits - 1, 16 - bits);
    assert Pow2(16) == 2 * Pow2(15);
  }

  lemma ExtendsSign(f: nat, g: int, half: nat, left: nat)
    requires left > 0 && half * left == 0x8000 && f < 2 * half <= 0x1_0000
    requires g == if f < half then f else f - 2 * half
    ensures ToInt16(ToInt16(f) * left) / left == g
  {
    ScaledField(f, g, half, left);
    TopBits(ToInt16(f), f, left);
    DivModUnique(left * g, left, g, 0);
  }

  lemma ScaledField(f: nat, g: int, half: nat, left: nat)
    requires half * left == 0x8000 && f < 2 * half && g == if f < half then f else f - 2 * half
    ensures ToInt16(f * left) == left * g
  {
    if f < half {
      assert f * left <= (half - 1) * left < 0x8000;
    } else {
      assert half * left <= f * left <= (2 * half - 1) * left < 0x1_0000;
      assert (f - 2 * half) * left == f * left - 0x1_0000;
    }
  }

  /** Only the low 16 bits of a product matter. */
  lemma TopBits(y: int, f: nat, left: nat)
    requires f < 0x1_0000 && y == ToInt16(f)
    ensures ToInt16(y * left) == ToInt16(f * left)
  {
    if y != f {
      assert y == f - 0x1_0000;
      assert y * left == f * left - 0x1_0000 * left;
      WrapAway(f * left, left);
    }
  }

  lemma WrapAway(a: int, k: int)
    ensures (a - 0x1_0000 * k) % 0x1_0000 == a % 0x1_0000
  {
  }

  lemma {:induction false} Pow2Bound(bits: nat)
    requires bits <= 16
    ensures Pow2(bits) <= 0x1_0000
  {
    Pow2Sixteen();
    Pow2Sum(bits, 16 - bits);
    MulAtLeast(Pow2(bits), Pow2(16 - bits));
  }

  /** The low bits of a value in range, as a number below the modulus. */
  lemma LowBitsOf(v: int, half: nat)
    requires half > 0 && 0 - half <= v < 2 * half
    ensures v % (2 * half) == if v < 0 then v + 2 * half else v
  {
    DivModUnique(v, 2 * half, if v < 0 then -1 else 0, if v < 0 then v + 2 * half else v);
  }

  lemma FieldInserted(info: Channel, fill: u16, v: int)
    requires FieldFits(info) && InRange(info, v)
    ensures 0 <= Insert(info, fill, v) < 0x1_0000
    ensures Field(info, Insert(info, fill, v)) == v
  {
    InsertFits(info, fill, v);
    FieldOf(info, fill, v);
    var m, half := Pow2(info.bits_used), Pow2(info.bits_used - 1);
    assert m == 2 * half;
    LowBitsOf(v, half);
    if info.is_signed {
      ModOfInt16(Insert(info, fill, v) / Pow2(info.shift), info.bits_used);
      SignExtension(info.bits_used, v % m);
    }
  }

  lemma SwapTwice(w: u16)
    ensures SwapBytes(SwapBytes(w)) == w
  {
    var high, low := w / 256, w % 256;
    assert high < 256 && SwapBytes(w) == low * 256 + high;
    DivModUnique(low * 256 + high, 256, low, high);
  }
}
