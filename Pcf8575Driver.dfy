/**
 * The PCF8575 port expander driver: a process-wide registry of the bus addresses in use, and
 * the pin argument that `write_value` and `read_value` accept. The I2C transfers themselves
 * are inputs: the port's last reading and whether a port write succeeded.
 */
module Pcf8575Drivers {
  import opened Wrappers
  import opened Algorithms
  import opened DeviceTypes
  import opened OptionalArrays
  import Bitsets

  /** A `Pcf8575Address`, a `uint8_t`. */
  type Address = nat

  /** `_device_addresses` has four slots. */
  const RegistrySize: nat := 4

  /** No two slots hold the same address. */
  predicate AtMostOnce(s: seq<Option<Address>>) {
    forall i, j :: 0 <= i < j < |s| && s[i].Some? ==> s[i] != s[j]
  }

  /** `add_address` on the slots: a registered address or a full registry is refused;
      otherwise the address takes the first empty slot. */
  function Added(s: seq<Option<Address>>, a: Address): (r: (bool, seq<Option<Address>>))
  {
    if Some(a) in s then (false, s)
    else match FirstEmpty(s) {
      case None => (false, s)
      case Some(k) => (true, s[k := Some(a)])
    }
  }

  /** `remove_address` on the slots: the first slot holding the address is emptied. */
  function Removed(s: seq<Option<Address>>, a: Address): (r: (bool, seq<Option<Address>>))
  {
    match Find(s, Some(a)) {
      case None => (false, s)
      case Some(k) => (true, s[k := None])
    }
  }

  /** Adding succeeds exactly for a new address while a slot is free; it then registers the
      address in one more slot, and the registry still holds each address at most once. */
  lemma AddRegisters(s: seq<Option<Address>>, a: Address)
    requires AtMostOnce(s)
    ensures var (ok, t) := Added(s, a);
              (ok <==> Some(a) !in s && None in s) && (!ok ==> t == s) &&
              (ok ==> Some(a) in t && |t| == |s| && forall i :: 0 <= i < |s| && t[i] != s[i] ==> s[i] == None) &&
              AtMostOnce(t)
  {
    var (ok, t) := Added(s, a);
    if ok {
      var k := FirstEmpty(s).value;
      assert t[k] == Some(a);
    }
  }

  /** Removing succeeds exactly for a registered address, and then the address is gone and
      every other slot is as it was. */
  lemma RemoveUnregisters(s: seq<Option<Address>>, a: Address)
    requires AtMostOnce(s)
    ensures var (ok, t) := Removed(s, a);
              (ok <==> Some(a) in s) && (!ok ==> t == s) &&
              Some(a) !in t && AtMostOnce(t) &&
              forall i :: 0 <= i < |s| && s[i] != Some(a) ==> t[i] == s[i]
  {
    var (ok, t) := Removed(s, a);
    if ok {
      var k := Find(s, Some(a)).value;
      forall i | 0 <= i < |t|
        ensures t[i] != Some(a)
      {
        if i != k {
          if i < k {
            assert s[i] != s[k];
          } else {
            assert s[k] != s[i];
          }
        }
      }
    }
  }

  /** Registering an address and removing it again restores the registry. */
  lemma AddThenRemoveRestores(s: seq<Option<Address>>, a: Address)
    requires AtMostOnce(s)
    ensures var (ok, t) := Added(s, a);
              ok ==> Removed(t, a) == (true, s)
  {
    var (ok, t) := Added(s, a);
    if ok {
      var k := FirstEmpty(s).value;
      assert t == s[k := Some(a)];
      assert forall i :: 0 <= i < |s| && i != k ==> t[i] == s[i] && s[i] != Some(a);
      assert t[k] == Some(a);
      assert t[k := None] == s;
    }
  }

  /** A second registration of the same address is refused and changes nothing. */
  lemma AddTwiceRefused(s: seq<Option<Address>>, a: Address)
    ensures var (ok, t) := Added(s, a);
              ok ==> Added(t, a) == (false, t)
  {
    var (ok, t) := Added(s, a);
    if ok {
      assert t[FirstEmpty(s).value] == Some(a);
    }
  }

  /** `_device_addresses`, the registry all drivers share. */
  class AddressRegistry {
    const slots: array<Option<Address>>

    ghost predicate Valid()
      reads this, slots
    {
      slots.Length == RegistrySize && AtMostOnce(slots[..])
    }

    /** The registry starts with every slot empty. */
    constructor ()
      ensures Valid() && fresh(slots)
      ensures forall i :: 0 <= i < slots.Length ==> slots[i].None?
    {
      slots := new Option<Address>[RegistrySize](_ => None);
    }

    /** `add_address`. */
    method AddAddress(a: Address) returns (ok: bool)
      requires Valid()
      modifies slots
      ensures Valid()
      ensures (ok, slots[..]) == Added(old(slots[..]), a)
    {
      ghost var s := slots[..];
      var i := 0;
      while i < slots.Length
        invariant i <= slots.Length
        invariant forall j :: 0 <= j < i ==> slots[j] != Some(a)
      {
        if slots[i].Some? && slots[i].value == a {
          assert s[i] == Some(a);
          return false;
        }
        i := i + 1;
      }
      assert Some(a) !in s;
      i := 0;
      while i < slots.Length
        invariant i <= slots.Length
        invariant forall j :: 0 <= j < i ==> slots[j].Some?
      {
        if slots[i].None? {
          assert FirstEmpty(s) == Some(i);
          slots[i] := Some(a);
          AddRegisters(s, a);
          return true;
        }
        i := i + 1;
      }
      ok := false;
    }

    /** `remove_address`. */
    method RemoveAddress(a: Address) returns (ok: bool)
      requires Valid()
      modifies slots
      ensures Valid()
      ensures (ok, slots[..]) == Removed(old(slots[..]), a)
    {
      ghost var s := slots[..];
      var i := 0;
      while i < slots.Length
        invariant i <= slots.Length
        invariant forall j :: 0 <= j < i ==> slots[j] != Some(a)
      {
        if slots[i].Some? && slots[i].value == a {
          assert Find(s, Some(a)) == Some(i);
          slots[i] := None;
          RemoveUnregisters(s, a);
          return true;
        }
        i := i + 1;
      }
      ok := false;
    }
  }

  predicate IsDigit(c: char) {
    '0' as int <= c as int <= '9' as int
  }

  /** The value of a string of decimal digits. */
  function DecimalValue(digits: string): (r: nat)
    requires forall k :: 0 <= k < |digits| ==> IsDigit(digits[k])
  {
    if digits == [] then 0
    else
      var last := digits[|digits| - 1];
      assert IsDigit(last);
      10 * DecimalValue(digits[..|digits| - 1]) + (last as int - '0' as int)
  }

  /** The digits `std::from_chars` consumes: the longest prefix of decimal digits. */
  function LeadingDigits(s: string): (r: string)
    ensures r <= s
    ensures forall k :: 0 <= k < |r| ==> IsDigit(r[k])
    ensures |r| < |s| ==> !IsDigit(s[|r|])
  {
    if s == [] || !IsDigit(s[0]) then []
    else [s[0]] + LeadingDigits(s[1..])
  }

  /** `std::from_chars` into a `uint8_t`: fails without a leading digit, and when the digits
      exceed 255. */
  function ParseUint8(s: string): (r: Option<nat>)
    ensures r.None? <==> LeadingDigits(s) == [] || DecimalValue(LeadingDigits(s)) > 255
    ensures r.Some? ==> r.value == DecimalValue(LeadingDigits(s)) && r.value <= 255
  {
    var digits := LeadingDigits(s);
    if digits == [] || DecimalValue(digits) > 255 then None else Some(DecimalValue(digits))
  }

  /** The pin a `what` argument names: one of the sixteen ports, or none. */
  function ParsePin(what: string): (r: Option<nat>)
    ensures r.Some? <==> ParseUint8(what).Some? && ParseUint8(what).value < 16
    ensures r.Some? ==> r == ParseUint8(what)
  {
    match ParseUint8(what) {
      case Some(p) => if p < 16 then Some(p) else None
      case None => None
    }
  }

  /** The decimal name of a pin. */
  function PinName(p: nat): string
    requires p < 16
  {
    if p < 10 then [('0' as int + p) as char] else ['1', ('0' as int + p - 10) as char]
  }

  /** Every pin's decimal name selects that pin. */
  lemma PinNamesParse(p: nat)
    requires p < 16
    ensures ParsePin(PinName(p)) == Some(p)
  {
    var name := PinName(p);
    if p < 10 {
      assert LeadingDigits(name) == name;
      assert DecimalValue(name) == DecimalValue([]) * 10 + p;
    } else {
      assert LeadingDigits(name[1..]) == name[1..];
      assert LeadingDigits(name) == name;
      assert name[..1] == ['1'];
      assert DecimalValue(name) == 10 * DecimalValue(['1']) + (p - 10);
    }
  }

  /** Names of no pin: a missing number, a number past the last pin, or one past a byte. */
  lemma OtherNamesAreRefused()
    ensures ParsePin("") == None && ParsePin("x1") == None
    ensures ParsePin("16") == None && ParsePin("256") == None
  {
    assert LeadingDigits("16") == "16";
    assert "16"[..1] == "1";
    assert LeadingDigits("256") == "256";
    assert "256"[..2] == "25" && "25"[..1] == "2";
  }

  /** `a & b` on unsigned integers. */
  function BitAnd(a: nat, b: nat): (r: nat)
    ensures r <= a && r <= b
  {
    if a == 0 || b == 0 then 0 else 2 * BitAnd(a / 2, b / 2) + (if a % 2 == 1 && b % 2 == 1 then 1 else 0)
  }

  /** Bit `k` of `a & b` is set exactly when bit `k` is set in both operands. */
  lemma {:induction false} BitAndHasCommonBits(a: nat, b: nat, k: nat)
    ensures Bitsets.Bit(BitAnd(a, b), k) <==> Bitsets.Bit(a, k) && Bitsets.Bit(b, k)
  {
    if a == 0 || b == 0 {
      Bitsets.ZeroHasNoBits(k);
    } else if k > 0 {
      var c := if a % 2 == 1 && b % 2 == 1 then 1 else 0;
      assert (2 * BitAnd(a / 2, b / 2) + c) / 2 == BitAnd(a / 2, b / 2);
      BitAndHasCommonBits(a / 2, b / 2, k - 1);
    }
  }

  /**
   * The mask `write_value` applies, `level << pin`: with level 1 only the pin's bit of the
   * written value survives, and with level 0 no bit does.
   */
  lemma WriteMaskKeepsOnlyThePin(w: nat, level: nat, pin: nat, k: nat)
    requires level <= 1
    ensures Bitsets.Bit(BitAnd(w, level * Bitsets.Pow2(pin)), k) <==>
              level == 1 && k == pin && Bitsets.Bit(w, pin)
  {
    BitAndHasCommonBits(w, level * Bitsets.Pow2(pin), k);
    Bitsets.ZeroHasNoBits(k);
    if level == 1 {
      Bitsets.ZeroHasNoBits(pin);
      Bitsets.BitsAfterAdd(0, pin, k);
    }
  }

  /** The level `read_value` as written reports for a pin: `readValue & pin`, which masks the
      port reading with the pin's NUMBER rather than with the pin's bit. */
  function PinLevelAsWritten(readValue: nat, pin: nat): nat {
    BitAnd(readValue, pin)
  }

  /** The level of a pin as intended: bit `pin` of the port reading. */
  function PinLevel(readValue: nat, pin: nat): (r: nat)
    ensures r == 1 <==> Bitsets.Bit(readValue, pin)
    ensures r == 0 <==> !Bitsets.Bit(readValue, pin)
  {
    if Bitsets.Bit(readValue, pin) then 1 else 0
  }

  /** With only pin `p` high, the intended reading is high on pin `p` and low on every other. */
  lemma OnlyTheHighPinReadsHigh(p: nat, q: nat)
    ensures PinLevel(Bitsets.Pow2(p), q) == if p == q then 1 else 0
  {
    Bitsets.ZeroHasNoBits(p);
    Bitsets.ZeroHasNoBits(q);
    Bitsets.BitsAfterAdd(0, p, q);
  }

  /** As written, pin 0 always reads low, and with only pin 3 high pin 3 reads low while
      with only pin 0 high pin 1 reads high. */
  lemma AsWrittenMisreadsPins(readValue: nat)
    ensures PinLevelAsWritten(readValue, 0) == 0
    ensures PinLevelAsWritten(8, 3) == 0 && PinLevel(8, 3) == 1
    ensures PinLevelAsWritten(1, 1) == 1 && PinLevel(1, 1) == 0
  {
    assert BitAnd(4, 1) == 2 * BitAnd(2, 0) + 0;
    assert BitAnd(8, 3) == 2 * BitAnd(4, 1) + 0;
    assert Bitsets.Bit(8, 3) by {
      assert Bitsets.Bit(1, 0);
      assert Bitsets.Bit(2, 1);
      assert Bitsets.Bit(4, 2);
    }
    assert BitAnd(1, 1) == 2 * BitAnd(0, 0) + 1;
    assert !Bitsets.Bit(1, 1) by {
      assert !Bitsets.Bit(0, 0);
    }
  }

  /** The parts of a `DeviceValues` that `write_value` reads: its `enable()` and its
      `percentage()`. */
  datatype PinRequest = PinRequest(enable: Option<nat>, percentage: Option<nat>)

  /** `Pcf8575Driver`: the last reading of the port and the bookkeeping of written pins. */
  class Pcf8575Driver {
    /** The port reading the reader thread stores, a `uint16_t`. */
    var readValue: nat
    /** `writtenValue`, a `uint16_t`. */
    var writtenValue: nat

    constructor (initialReading: nat)
      requires initialReading < 0x1_0000
      ensures readValue == initialReading && writtenValue == 0xFFFF
    {
      readValue := initialReading;
      writtenValue := 0xFFFF;
    }

    /**
     * `write_value`: an unparsable pin or one past the sixteenth fails, and so does a value
     * with neither an enable nor a percentage part. Otherwise `writtenValue` is masked with
     * the requested level (0 or 1) shifted to the pin, and the outcome is that of the port
     * write (`portWriteOk`).
     */
    method WriteValue(what: string, value: PinRequest, portWriteOk: bool) returns (r: DeviceOperationResult)
      modifies this
      ensures ParsePin(what).None? ==> r == OperationFailure && writtenValue == old(writtenValue)
      ensures value.enable.None? && value.percentage.None? ==> r == OperationFailure && writtenValue == old(writtenValue)
      ensures r == OperationOk <==>
                ParsePin(what).Some? && (value.enable.Some? || value.percentage.Some?) && portWriteOk
      ensures r != OperationOk ==> r == OperationFailure
      ensures ParsePin(what).Some? && (value.enable.Some? || value.percentage.Some?) ==>
                var level := Min(if value.enable.Some? then value.enable.value else value.percentage.value, 1);
                writtenValue == BitAnd(old(writtenValue), level * Bitsets.Pow2(ParsePin(what).value))
      ensures ParsePin(what).Some? && (value.enable.Some? || value.percentage.Some?) ==>
                var level := Min(if value.enable.Some? then value.enable.value else value.percentage.value, 1);
                var pin := ParsePin(what).value;
                forall k :: Bitsets.Bit(writtenValue, k) <==>
                  level == 1 && k == pin && Bitsets.Bit(old(writtenValue), pin)
      ensures readValue == old(readValue)
    {
      var pin := ParsePin(what);
      if pin.None? {
        return OperationFailure;
      }
      var toSet: nat;
      if value.enable.Some? {
        toSet := Min(value.enable.value, 1);
      } else if value.percentage.Some? {
        toSet := Min(value.percentage.value, 1);
      } else {
        return OperationFailure;
      }
      var before := writtenValue;
      writtenValue := BitAnd(writtenValue, toSet * Bitsets.Pow2(pin.value));
      forall k | true
        ensures Bitsets.Bit(writtenValue, k) <==> toSet == 1 && k == pin.value && Bitsets.Bit(before, pin.value)
      {
        WriteMaskKeepsOnlyThePin(before, toSet, pin.value, k);
      }
      r := if portWriteOk then OperationOk else OperationFailure;
    }

    /** `read_value` as written: the level it reports is `readValue & pin`. */
    method ReadValueAsWritten(what: string) returns (r: DeviceOperationResult, level: Option<nat>)
      ensures r == OperationOk <==> ParsePin(what).Some?
      ensures r != OperationOk ==> r == OperationFailure && level.None?
      ensures r == OperationOk ==> level == Some(PinLevelAsWritten(readValue, ParsePin(what).value))
    {
      var pin := ParsePin(what);
      if pin.None? {
        return OperationFailure, None;
      }
      return OperationOk, Some(BitAnd(readValue, pin.value));
    }

    /** `read_value` as intended: the level of the pin's bit in the port reading. */
    method ReadValue(what: string) returns (r: DeviceOperationResult, level: Option<nat>)
      ensures r == OperationOk <==> ParsePin(what).Some?
      ensures r != OperationOk ==> r == OperationFailure && level.None?
      ensures r == OperationOk ==> level == Some(PinLevel(readValue, ParsePin(what).value))
    {
      var pin := ParsePin(what);
      if pin.None? {
        return OperationFailure, None;
      }
      return OperationOk, Some(PinLevel(readValue, pin.value));
    }
  }
}
