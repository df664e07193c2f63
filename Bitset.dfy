/**
 * `Bitset<Length>`: `Length` (0 to 64) flags packed into the smallest unsigned integer of
 * 8, 16, 32 or 64 bits. The storage is modelled as the unsigned integer's value, and the
 * masks of `set` and `test` (`1 << bit`, `~`, `&`, `|`) by the arithmetic they amount to.
 */
module Bitsets {
  /** `ChooseInteger<Length>`: the width of the unsigned integer type that holds the flags. */
  function StorageBits(length: nat): (w: nat)
    requires length <= 64
    ensures length <= w && (w == 8 || w == 16 || w == 32 || w == 64)
    ensures w > 8 ==> length > 8
    ensures w > 16 ==> length > 16
    ensures w > 32 ==> length > 32
  {
    if length <= 8 then 8 else if length <= 16 then 16 else if length <= 32 then 32 else 64
  }

  /** `1 << n`. */
  function Pow2(n: nat): (p: nat)
    ensures p >= 1
  {
    if n == 0 then 1 else 2 * Pow2(n - 1)
  }

  /** Whether `d & (1 << b)` is non-zero. */
  predicate Bit(d: nat, b: nat)
  {
    if b == 0 then d % 2 == 1 else Bit(d / 2, b - 1)
  }

  /** A positive multiple of `m` is at least `m`. */
  lemma {:induction false} MultipleAtLeast(m: nat, k: nat)
    requires k >= 1
    ensures m * k >= m
  {
    if k > 1 {
      MultipleAtLeast(m, k - 1);
      assert m * k == m * (k - 1) + m;
    }
  }

  /** A non-zero multiple of `m` is at least `m` away from zero. */
  lemma MultipleSign(m: nat, k: int)
    requires m > 0
    ensures k >= 1 ==> m * k >= m
    ensures k <= -1 ==> m * k + m <= 0
  {
    if k >= 1 {
      MultipleAtLeast(m, k);
    } else if k <= -1 {
      MultipleAtLeast(m, -k);
      assert m * k == -(m * -k);
    }
  }

  /** Quotient and remainder are unique. */
  lemma DivUnique(n: nat, m: nat, q: nat, r: nat)
    requires 0 < m && r < m && n == m * q + r
    ensures n / m == q
  {
    var q0, r0 := n / m, n % m;
    assert n == m * q0 + r0 && r0 < m;
    assert m * (q0 - q) == m * q0 - m * q;
    MultipleSign(m, q0 - q);
  }

  /** Halving `(2 * p) * q + r` with `r < 2 * p`. */
  lemma HalfOfMultiple(d: nat, p: nat, q: nat, r: nat)
    requires r < 2 * p && d == (2 * p) * q + r
    ensures d / 2 == p * q + r / 2 && r / 2 < p
  {
    var pq := p * q;
    assert (2 * p) * q == 2 * pq;
    DivUnique(d, 2, pq + r / 2, r % 2);
  }

  /** Halving and then dividing by `p` is dividing by `2 * p`. */
  lemma HalveThenDivide(d: nat, p: nat)
    requires p > 0
    ensures (d / 2) / p == d / (2 * p)
  {
    var q: int, r := d / (2 * p), d % (2 * p);
    assert d == (2 * p) * q + r;
    MultipleSign(2 * p, q);
    HalfOfMultiple(d, p, q, r);
    DivUnique(d / 2, p, q, r / 2);
  }

  /** `Bit` is the binary digit of weight `1 << b`. */
  lemma {:induction false} BitIsDigit(d: nat, b: nat)
    ensures Bit(d, b) <==> (d / Pow2(b)) % 2 == 1
  {
    if b > 0 {
      BitIsDigit(d / 2, b - 1);
      HalveThenDivide(d, Pow2(b - 1));
    }
  }

  /** A set bit contributes its weight to the value. */
  lemma {:induction false} BitAtLeast(d: nat, bit: nat)
    requires Bit(d, bit)
    ensures d >= Pow2(bit)
  {
    if bit > 0 {
      BitAtLeast(d / 2, bit - 1);
    }
  }

  /** Adding the weight of a clear bit sets that bit and leaves the others alone. */
  lemma {:induction false} BitsAfterAdd(d: nat, bit: nat, b: nat)
    requires !Bit(d, bit)
    ensures Bit(d + Pow2(bit), b) == (b == bit || Bit(d, b))
  {
    if bit == 0 {
      if b > 0 {
        assert (d + 1) / 2 == d / 2;
      }
    } else if b > 0 {
      assert (d + Pow2(bit)) / 2 == d / 2 + Pow2(bit - 1);
      BitsAfterAdd(d / 2, bit - 1, b - 1);
    }
  }

  /** Subtracting the weight of a set bit clears that bit and leaves the others alone. */
  lemma {:induction false} BitsAfterSub(d: nat, bit: nat, b: nat)
    requires Bit(d, bit)
    ensures d >= Pow2(bit)
    ensures Bit(d - Pow2(bit), b) == (b != bit && Bit(d, b))
  {
    BitAtLeast(d, bit);
    if bit == 0 {
      if b > 0 {
        assert (d - 1) / 2 == d / 2;
      }
    } else if b > 0 {
      assert (d - Pow2(bit)) / 2 == d / 2 - Pow2(bit - 1);
      BitsAfterSub(d / 2, bit - 1, b - 1);
    }
  }

  /** Setting a clear bit of a value below `1 << w` keeps it below `1 << w`. */
  lemma {:induction false} AddWithinWidth(d: nat, bit: nat, w: nat)
    requires d < Pow2(w) && bit < w && !Bit(d, bit)
    ensures d + Pow2(bit) < Pow2(w)
  {
    var half := Pow2(w - 1);
    assert Pow2(w) == 2 * half;
    if bit == 0 {
      assert d % 2 == 0;
    } else {
      assert d / 2 < half;
      AddWithinWidth(d / 2, bit - 1, w - 1);
      assert d / 2 + Pow2(bit - 1) < half;
      assert d + Pow2(bit) == 2 * (d / 2 + Pow2(bit - 1)) + d % 2;
    }
  }

  /** `d & ~(1 << bit)`. */
  function ClearBit(d: nat, bit: nat): (r: nat)
    ensures forall b :: Bit(r, b) == (b != bit && Bit(d, b))
    ensures r <= d
  {
    if Bit(d, bit) then
      BitAtLeast(d, bit);
      assert forall b :: Bit(d - Pow2(bit), b) == (b != bit && Bit(d, b)) by {
        forall b { BitsAfterSub(d, bit, b); }
      }
      d - Pow2(bit)
    else
      d
  }

  /** `x | ((value & 1) << bit)`. */
  function OrBit(x: nat, bit: nat, value: bool): (r: nat)
    ensures forall b :: Bit(r, b) == ((b == bit && value) || Bit(x, b))
  {
    if value && !Bit(x, bit) then
      assert forall b :: Bit(x + Pow2(bit), b) == (b == bit || Bit(x, b)) by {
        forall b { BitsAfterAdd(x, bit, b); }
      }
      x + Pow2(bit)
    else
      x
  }

  /** The value `set(bit, value)` stores: `(d & ~(1 << bit)) | ((value & 1) << bit)`. */
  function SetBit(d: nat, bit: nat, value: bool): (r: nat)
    ensures forall b :: Bit(r, b) == if b == bit then value else Bit(d, b)
  {
    OrBit(ClearBit(d, bit), bit, value)
  }

  /** `set` never carries a value out of its storage type. */
  lemma SetBitWithinWidth(d: nat, bit: nat, value: bool, w: nat)
    requires d < Pow2(w) && bit < w
    ensures SetBit(d, bit, value) < Pow2(w)
  {
    var c := ClearBit(d, bit);
    if value {
      AddWithinWidth(c, bit, w);
    }
  }

  class Bitset {
    const Length: nat
    /** `data`, the `UsedInt` storage. */
    var data: nat

    ghost predicate Valid()
      reads this
    {
      Length <= 64 && data < Pow2(StorageBits(Length))
    }

    constructor (length: nat)
      requires length <= 64
      ensures Valid() && Length == length
      ensures forall b :: 0 <= b < StorageBits(Length) ==> !Test(b)
    {
      Length := length;
      data := 0;
      new;
      forall b | 0 <= b < StorageBits(Length) ensures !Test(b) {
        ZeroHasNoBits(b);
      }
    }

    /** `test(bit)`: whether the binary digit of weight `1 << bit` of the storage is 1. */
    function Test(bit: nat): (r: bool)
      reads this
      requires Valid() && bit < StorageBits(Length)
      ensures r <==> (data / Pow2(bit)) % 2 == 1
    {
      BitIsDigit(data, bit);
      Bit(data, bit)
    }

    method Set(bit: nat, value: bool)
      requires Valid() && bit < StorageBits(Length)
      modifies this
      ensures Valid() && Test(bit) == value
      ensures forall b :: 0 <= b < StorageBits(Length) && b != bit ==> Test(b) == old(Test(b))
    {
      SetBitWithinWidth(data, bit, value, StorageBits(Length));
      data := SetBit(data, bit, value);
    }

    method Invert(bit: nat)
      requires Valid() && bit < StorageBits(Length)
      modifies this
      ensures Valid() && Test(bit) == !old(Test(bit))
      ensures forall b :: 0 <= b < StorageBits(Length) && b != bit ==> Test(b) == old(Test(b))
    {
      Set(bit, !Test(bit));
    }
  }

  /** A freshly constructed bitset (`data{0}`) has no flag set. */
  lemma {:induction false} ZeroHasNoBits(b: nat)
    ensures !Bit(0, b)
  {
    if b > 0 {
      ZeroHasNoBits(b - 1);
    }
  }
}
