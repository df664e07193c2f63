/**
 * `check_assign.h`: range checks used before narrowing an integer into a typed destination.
 * Integer types are described by signedness and width; values are mathematical integers,
 * and C++'s conversions (modular casts, integral promotion, the usual arithmetic
 * conversions of mixed comparisons) are written out.
 */
module CheckAssign {
  /** An integral type of the target: signed or unsigned, 8, 16, 32 or 64 bits wide. */
  datatype IntType = IntType(signed: bool, bits: nat)
  {
    predicate Valid() { bits == 8 || bits == 16 || bits == 32 || bits == 64 }
  }

  /** `int` on the firmware's targets. */
  const Int32 := IntType(true, 32)

  function Modulus(t: IntType): (m: nat)
    requires t.Valid()
    ensures m >= 256 && m % 2 == 0
  {
    if t.bits == 8 then 0x100
    else if t.bits == 16 then 0x1_0000
    else if t.bits == 32 then 0x1_0000_0000
    else 0x1_0000_0000_0000_0000
  }

  /** `std::numeric_limits<T>::min()`. */
  function Min(t: IntType): int
    requires t.Valid()
  {
    if t.signed then -(Modulus(t) / 2) else 0
  }

  /** `std::numeric_limits<T>::max()`. */
  function Max(t: IntType): int
    requires t.Valid()
  {
    if t.signed then Modulus(t) / 2 - 1 else Modulus(t) - 1
  }

  predicate InRange(t: IntType, v: int)
    requires t.Valid()
  {
    Min(t) <= v <= Max(t)
  }

  /** `static_cast<T>(v)` of an integer: the value of `t` congruent to `v` modulo 2^bits. */
  function Cast(t: IntType, v: int): (r: int)
    requires t.Valid()
    ensures InRange(t, r)
    ensures (v - r) % Modulus(t) == 0
    ensures InRange(t, v) ==> r == v
  {
    var m := Modulus(t);
    var u := v % m;
    CastCongruent(t, v);
    if t.signed && u > Max(t) then u - m else u
  }

  /** Both candidates of `Cast` differ from `v` by a multiple of the modulus. */
  lemma CastCongruent(t: IntType, v: int)
    requires t.Valid()
    ensures var m := Modulus(t); (v - v % m) % m == 0 && (v - (v % m - m)) % m == 0
  {
    if t.bits == 8 {
    } else if t.bits == 16 {
    } else if t.bits == 32 {
    } else {
    }
  }

  /** Integral promotion: types narrower than `int` compute as `int`. */
  function Promote(t: IntType): (p: IntType)
    requires t.Valid()
    ensures p.Valid() && p.bits >= 32
    ensures forall v :: InRange(t, v) ==> InRange(p, v)
  {
    if t.bits < 32 then Int32 else t
  }

  /** The usual arithmetic conversions: the type in which `a op b` is evaluated. */
  function Common(a: IntType, b: IntType): (c: IntType)
    requires a.Valid() && b.Valid()
    ensures c.Valid()
  {
    var pa, pb := Promote(a), Promote(b);
    if pa.signed == pb.signed then (if pa.bits >= pb.bits then pa else pb)
    else
      var (u, s) := if pa.signed then (pb, pa) else (pa, pb);
      if u.bits >= s.bits then u else s
  }

  /** `a >= b` for `a` of type `ta` and `b` of type `tb`. */
  predicate GreaterEq(ta: IntType, a: int, tb: IntType, b: int)
    requires ta.Valid() && tb.Valid()
  {
    var c := Common(ta, tb);
    Cast(c, a) >= Cast(c, b)
  }

  /**
   * `canBeExpressedInType<Target>(value)` for a `value` of type `source`. The round trip
   * accepts every value that fits the target; a value that does not fit passes only from an
   * unsigned source at least as wide as a signed target, where it wraps back to itself.
   */
  function CanBeExpressedInType(target: IntType, source: IntType, value: int): (r: bool)
    requires target.Valid() && source.Valid() && InRange(source, value)
    ensures InRange(target, value) ==> r
    ensures r ==> InRange(target, value) || (!source.signed && target.signed && source.bits >= target.bits)
  {
    if target.signed != source.signed && value < 0 then false
    else Cast(source, Cast(target, value)) == value
  }

  /** `IsContainedInType<T, T2>` for two integral types: it holds at least whenever every
      value of `T2` fits in `T`. */
  function IsContainedInType(t: IntType, t2: IntType): (r: bool)
    requires t.Valid() && t2.Valid()
    ensures Min(t) <= Min(t2) && Max(t2) <= Max(t) ==> r
  {
    CanBeExpressedInType(t, t2, Max(t2)) && CanBeExpressedInType(t, t2, Min(t2))
  }

  /** `isInRange(value, min, max)`; the source's template requires `IsContainedInType<T, OT>`.
      When the comparison type holds the value and both bounds, it is the range test. */
  function IsInRange(t: IntType, value: int, ot: IntType, min: int, max: int): (r: bool)
    requires t.Valid() && ot.Valid() && InRange(t, value) && InRange(ot, min) && InRange(ot, max)
    requires IsContainedInType(t, ot)
    ensures InRange(Common(t, ot), value) && InRange(Common(t, ot), min) && InRange(Common(t, ot), max) ==>
              (r <==> min <= value <= max)
  {
    CommonSymmetric(t, ot);
    GreaterEq(t, value, ot, min) && GreaterEq(ot, max, t, value)
  }

  /** `isInRangeNoCheck(value, min, max)` for a `value` of type `vt` and bounds of type `ot`:
      only a value that survives the round trip into the bounds' type can pass, and when the
      comparison type holds the value and both bounds, that value passes exactly when it lies
      between them. */
  function IsInRangeNoCheck(vt: IntType, value: int, ot: IntType, min: int, max: int): (r: bool)
    requires vt.Valid() && ot.Valid() && InRange(vt, value) && InRange(ot, min) && InRange(ot, max)
    ensures r ==> CanBeExpressedInType(ot, vt, value)
    ensures CanBeExpressedInType(ot, vt, value) &&
            InRange(Common(vt, ot), value) && InRange(Common(vt, ot), min) && InRange(Common(vt, ot), max) ==>
              (r <==> min <= value <= max)
  {
    CommonSymmetric(vt, ot);
    if !CanBeExpressedInType(ot, vt, value) || !CanBeExpressedInType(ot, vt, value) then false
    else GreaterEq(vt, value, ot, min) && GreaterEq(ot, max, vt, value)
  }



  /**
   * The pairs of types for which the comparisons of `isInRangeNoCheck` run in an unsigned type
   * although the limits are signed: a value of 32 or more unsigned bits against a signed type
   * no wider than it. The negative lower limit then converts to a huge unsigned number.
   */
  predicate MixedSignTrap(t: IntType, vt: IntType)
    requires t.Valid() && vt.Valid()
  {
    !vt.signed && vt.bits >= 32 && t.signed && t.bits <= vt.bits
  }

  /** `canBeExpressedInType<int32_t>(2147483648u)` holds although the value does not fit. */
  lemma ExpressibleButOutOfRange()
    ensures !InRange(Int32, 0x8000_0000)
    ensures CanBeExpressedInType(Int32, IntType(false, 32), 0x8000_0000)
  {
    assert Cast(Int32, 0x8000_0000) == -0x8000_0000;
    assert Cast(IntType(false, 32), -0x8000_0000) == 0x8000_0000;
  }

  /**
   * `IsContainedInType<T, T2>` holds when every value of `T2` fits in `T`, and also, wrongly,
   * when `T2` is unsigned and at least as wide as a signed `T`.
   */
  lemma ContainedCharacterized(t: IntType, t2: IntType)
    requires t.Valid() && t2.Valid()
    ensures IsContainedInType(t, t2) <==>
      (Min(t) <= Min(t2) && Max(t2) <= Max(t)) || (!t2.signed && t.signed && t2.bits >= t.bits)
  {
    if !t2.signed && t.signed && t2.bits >= t.bits {
      WrapsToMinusOne(t, t2);
    }
  }

  /** The maximum of an unsigned type wraps to -1 in a signed type no wider than it, and back. */
  lemma WrapsToMinusOne(t: IntType, t2: IntType)
    requires t.Valid() && t2.Valid() && !t2.signed && t.signed && t2.bits >= t.bits
    ensures Cast(t, Max(t2)) == -1 && Cast(t2, -1) == Max(t2)
  {
    if t.bits == 8 {
    } else if t.bits == 16 {
    } else if t.bits == 32 {
    } else {
    }
  }

  /** `isInRange(-1, 0u, UINT32_MAX)` holds for an `int` value: -1 is converted to `UINT32_MAX`. */
  lemma NegativeInUnsignedRange()
    ensures IsContainedInType(Int32, IntType(false, 32))
    ensures IsInRange(Int32, -1, IntType(false, 32), 0, 0xFFFF_FFFF)
  {
    WrapsToMinusOne(Int32, IntType(false, 32));
  }

  /** `Common` does not depend on the order of the operands. */
  lemma CommonSymmetric(a: IntType, b: IntType)
    requires a.Valid() && b.Valid()
    ensures Common(a, b) == Common(b, a)
  {
  }

  /**
   * The common type holds every value of an operand, except the negative values of a
   * signed operand when the common type is unsigned.
   */
  lemma CommonHolds(a: IntType, b: IntType, v: int)
    requires a.Valid() && b.Valid() && InRange(a, v)
    requires Common(a, b).signed || v >= 0
    ensures InRange(Common(a, b), v)
  {
  }

  /** A negative value of a type at most half the modulus wraps to `v + 2^bits`. */
  lemma CastNegative(c: IntType, v: int)
    requires c.Valid() && !c.signed && -(Modulus(c) / 2) <= v < 0
    ensures Cast(c, v) == v + Modulus(c)
  {
    if c.bits == 8 {
    } else if c.bits == 16 {
    } else if c.bits == 32 {
    } else {
    }
  }

  /** Inside the mixed-sign trap the lower-limit comparison and the upper one exclude each other. */
  lemma TrapRejects(t: IntType, vt: IntType, value: int)
    requires t.Valid() && vt.Valid() && InRange(vt, value) && MixedSignTrap(t, vt)
    ensures !IsInRangeNoCheck(vt, value, t, Min(t), Max(t))
  {
    var c := Common(vt, t);
    CommonSymmetric(vt, t);
    assert c == vt;
    CastNegative(c, Min(t));
    assert Cast(c, value) == value;
    assert Cast(c, Max(t)) == Max(t);
    assert GreaterEq(vt, value, t, Min(t)) == (value >= Min(t) + Modulus(c));
    assert GreaterEq(t, Max(t), vt, value) == (Max(t) >= value);
  }

  /** A negative value compared in an unsigned common type is already rejected by the round trip. */
  lemma NegativeRejected(t: IntType, vt: IntType, value: int)
    requires t.Valid() && vt.Valid() && InRange(vt, value)
    requires value < 0 && !Common(vt, t).signed
    ensures !CanBeExpressedInType(t, vt, value) && !InRange(t, value)
  {
  }

  /** When the common type holds the value and both limits, the comparisons are exact. */
  lemma ExactComparisons(t: IntType, vt: IntType, value: int)
    requires t.Valid() && vt.Valid() && InRange(vt, value)
    requires InRange(Common(vt, t), value) && InRange(Common(vt, t), Min(t)) && InRange(Common(vt, t), Max(t))
    ensures IsInRangeNoCheck(vt, value, t, Min(t), Max(t)) <==> InRange(t, value)
  {
    var c := Common(vt, t);
    CommonSymmetric(vt, t);
    assert Cast(c, value) == value && Cast(c, Min(t)) == Min(t) && Cast(c, Max(t)) == Max(t);
    assert GreaterEq(vt, value, t, Min(t)) == (value >= Min(t));
    assert GreaterEq(t, Max(t), vt, value) == (Max(t) >= value);
  }

  /** Outside the mixed-sign trap the comparisons are exact. */
  lemma ExactOutsideTrap(t: IntType, vt: IntType, value: int)
    requires t.Valid() && vt.Valid() && InRange(vt, value) && !MixedSignTrap(t, vt)
    ensures IsInRangeNoCheck(vt, value, t, Min(t), Max(t)) <==> InRange(t, value)
  {
    if !Common(vt, t).signed && value < 0 {
      NegativeRejected(t, vt, value);
    } else {
      CommonSymmetric(vt, t);
      CommonHolds(vt, t, value);
      CommonHolds(t, vt, Min(t));
      CommonHolds(t, vt, Max(t));
      ExactComparisons(t, vt, value);
    }
  }

  /**
   * `isWithinLimitsForType<T>(value)` as written: `isInRangeNoCheck` against the limits of
   * `T`. Outside the mixed-sign trap it is exactly the range check; inside it, it rejects
   * every value.
   */
  function IsWithinLimitsForTypeAsWritten(t: IntType, vt: IntType, value: int): (r: bool)
    requires t.Valid() && vt.Valid() && InRange(vt, value)
    ensures MixedSignTrap(t, vt) ==> !r
    ensures !MixedSignTrap(t, vt) ==> (r <==> InRange(t, value))
  {
    if MixedSignTrap(t, vt) then
      TrapRejects(t, vt, value);
      IsInRangeNoCheck(vt, value, t, Min(t), Max(t))
    else
      ExactOutsideTrap(t, vt, value);
      IsInRangeNoCheck(vt, value, t, Min(t), Max(t))
  }


  /** `isWithinLimitsForType<int32_t>(5u)` is false although 5 fits in `int32_t`. */
  lemma UnsignedFiveRejected()
    ensures InRange(Int32, 5) && !IsWithinLimitsForTypeAsWritten(Int32, IntType(false, 32), 5)
  {
  }

  /** The check as evidently intended: the value lies between the limits of the type, so
      that converting it to the type keeps it. */
  function IsWithinLimitsForType(t: IntType, vt: IntType, value: int): (r: bool)
    requires t.Valid() && vt.Valid() && InRange(vt, value)
    ensures r <==> Cast(t, value) == value
  {
    InRange(t, value)
  }

  /**
   * `checkAssign(dest, value)`: assigns `static_cast<T>(value)` and reports success when the
   * value is within the limits of `T`; otherwise the destination keeps its value.
   */
  method CheckAssign(t: IntType, dest: int, vt: IntType, value: int) returns (ok: bool, newDest: int)
    requires t.Valid() && vt.Valid() && InRange(vt, value) && InRange(t, dest)
    ensures ok <==> InRange(t, value)
    ensures ok ==> newDest == value
    ensures !ok ==> newDest == dest
    ensures InRange(t, newDest)
  {
    if IsWithinLimitsForType(t, vt, value) {
      return true, Cast(t, value);
    }
    return false, dest;
  }
}
