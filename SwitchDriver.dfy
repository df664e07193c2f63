/**
 * The switch driver: it reads a device, compares the reading with a target value and writes
 * a low, neutral or high argument to another device, falling back to a configured default
 * whenever the reading or the comparison fails.
 */
module SwitchDrivers {
  import opened Wrappers
  import opened Algorithms
  import opened DeviceTypes

  datatype SwitchType = LevelHolder | Invalid

  /** `SwitchDefaultValue`, which also names the three actions a switch can take. */
  datatype Level = Low | High | Neutral

  datatype BoundCalculationError = ReadError | CalculationError

  /** `read_from_json<SwitchType>`: only the exact name selects the level holder. */
  function ParseSwitchType(input: string): (r: SwitchType)
    ensures r == LevelHolder <==> input == "LevelHolder"
  {
    if input == "LevelHolder" then LevelHolder else Invalid
  }

  /** `read_from_json<SwitchDefaultValue>`: a capitalised or lower-case level name selects
      that level, and anything else is neutral. */
  function ParseDefaultValue(input: string): (r: Level)
    ensures r == Low <==> input == "Low" || input == "low"
    ensures r == High <==> input == "High" || input == "high"
    ensures r == Neutral <==> input !in ["Low", "low", "High", "high"]
  {
    if input == "Low" || input == "low" then Low
    else if input == "High" || input == "high" then High
    else Neutral
  }

  /** `SwitchConfig` without the device ids and arguments, which only the device calls use. */
  datatype SwitchConfig = SwitchConfig(
    kind: SwitchType,
    defaultValue: Level,
    stayInState: nat,
    onlyTriggerOnChange: bool,
    deviceUnit: Unit,
    targetValue: DeviceValues,
    lowValueArgument: DeviceValues,
    neutralValueArgument: DeviceValues,
    highValueArgument: DeviceValues,
    maxAllowedDifference: DeviceValues)

  /** The argument the configuration holds for an action. */
  function Argument(conf: SwitchConfig, level: Level): DeviceValues {
    match level
    case Low => conf.lowValueArgument
    case Neutral => conf.neutralValueArgument
    case High => conf.highValueArgument
  }

  /** The action for a difference: neutral inside the allowed band, otherwise low below zero
      and high from zero up. */
  function Band(maxAllowed: real, difference: real): Level {
    if Magnitude(maxAllowed) > Magnitude(difference) then Neutral
    else if difference < 0.0 then Low
    else High
  }

  /** The order of the actions along the difference axis. */
  function Rank(level: Level): nat {
    match level
    case Low => 0
    case Neutral => 1
    case High => 2
  }

  function Mirror(level: Level): Level {
    match level
    case Low => High
    case Neutral => Neutral
    case High => Low
  }

  /** The switch is neutral exactly on the open interval of the allowed difference. */
  lemma NeutralWithinAllowedDifference(maxAllowed: real, difference: real)
    ensures Band(maxAllowed, difference) == Neutral <==> -Magnitude(maxAllowed) < difference < Magnitude(maxAllowed)
  {
  }

  /** A larger difference never selects a lower action. */
  lemma BandIsMonotone(maxAllowed: real, d1: real, d2: real)
    requires d1 <= d2
    ensures Rank(Band(maxAllowed, d1)) <= Rank(Band(maxAllowed, d2))
  {
  }

  /** Negating a non-zero difference swaps low and high. */
  lemma BandIsSymmetric(maxAllowed: real, difference: real)
    requires difference != 0.0
    ensures Band(maxAllowed, -difference) == Mirror(Band(maxAllowed, difference))
  {
  }

  /**
   * `calculateRelevantBound`, given the outcome of `targetValue.difference(reading)`: no
   * difference is a calculation error; an allowed difference or a difference that is not a
   * float is a read error; otherwise the argument of the difference's band.
   */
  function CalculateRelevantBound(conf: SwitchConfig, difference: Option<DeviceValues>): (r: Expected<DeviceValues, BoundCalculationError>)
    ensures r == Unexpected(CalculationError) <==> difference.None?
    ensures r == Unexpected(ReadError) <==>
              difference.Some? && (conf.maxAllowedDifference.amount.None? || difference.value.amount.None?)
    ensures r.Value? ==>
              r.value == Argument(conf, Band(conf.maxAllowedDifference.amount.value, difference.value.amount.value))
  {
    match difference
    case None => Unexpected(CalculationError)
    case Some(d) =>
      match conf.maxAllowedDifference.amount
      case None => Unexpected(ReadError)
      case Some(maxAllowed) =>
        match d.amount
        case None => Unexpected(ReadError)
        case Some(value) =>
          if Magnitude(maxAllowed) > Magnitude(value) then Value(conf.neutralValueArgument)
          else if value < 0.0 then Value(conf.lowValueArgument)
          else Value(conf.highValueArgument)
  }

  /** The driver state `watchValuesAndReact` reads and updates. */
  datatype SwitchState = SwitchState(switchedStatesAt: int, previousValue: DeviceValues)

  /** What one round of `watchValuesAndReact` writes, and the state after it. */
  datatype Reaction = Reaction(written: Option<DeviceValues>, state: SwitchState)

  /** `writeValueToDevice`: a successful write records when the switch changed state. */
  function AfterWrite(s: SwitchState, now: int, writeOk: bool): SwitchState {
    if writeOk then s.(switchedStatesAt := now) else s
  }

  /**
   * One round of `watchValuesAndReact` at time `now`. `reading` is the outcome of reading
   * the device, `difference` the unit arithmetic of `DeviceValues`, `writeOk` the outcome
   * of writing the target device.
   */
  function React(conf: SwitchConfig, s: SwitchState, reading: Option<DeviceValues>,
                 difference: (DeviceValues, DeviceValues) -> Option<DeviceValues>, now: int, writeOk: bool): (r: Reaction)
    ensures r.written.None? ==> r.state == s
    ensures r.state.previousValue != s.previousValue ==> r.written == Some(r.state.previousValue)
    ensures r.state.switchedStatesAt != s.switchedStatesAt ==> r.written.Some? && writeOk && r.state.switchedStatesAt == now
  {
    var safety := Reaction(Some(Argument(conf, conf.defaultValue)), AfterWrite(s, now, writeOk));
    if reading.None? then safety
    else
      var bound := CalculateRelevantBound(conf, difference(conf.targetValue, reading.value));
      if bound.Unexpected? then safety
      else if s.switchedStatesAt + conf.stayInState > now then Reaction(None, s)
      else if bound.value == s.previousValue && conf.onlyTriggerOnChange then Reaction(None, s)
      else Reaction(Some(bound.value), AfterWrite(s.(previousValue := bound.value), now, writeOk))
  }

  /** A failed reading or comparison writes the default action and remembers no new value. */
  lemma FailureEnablesSafety(conf: SwitchConfig, s: SwitchState, reading: Option<DeviceValues>,
                             difference: (DeviceValues, DeviceValues) -> Option<DeviceValues>, now: int, writeOk: bool)
    requires reading.None? || CalculateRelevantBound(conf, difference(conf.targetValue, reading.value)).Unexpected?
    ensures var r := React(conf, s, reading, difference, now, writeOk);
              r.written == Some(Argument(conf, conf.defaultValue)) && r.state.previousValue == s.previousValue
  {
  }

  /** Inside the stay-in-state window nothing is written and nothing changes. */
  lemma NoWriteWithinStayWindow(conf: SwitchConfig, s: SwitchState, reading: Option<DeviceValues>,
                                difference: (DeviceValues, DeviceValues) -> Option<DeviceValues>, now: int, writeOk: bool)
    requires reading.Some? && CalculateRelevantBound(conf, difference(conf.targetValue, reading.value)).Value?
    requires now < s.switchedStatesAt + conf.stayInState
    ensures React(conf, s, reading, difference, now, writeOk) == Reaction(None, s)
  {
  }

  /** A switch that only triggers on change writes nothing when the action is the one it
      wrote last. */
  lemma NoRepeatWhenOnlyOnChange(conf: SwitchConfig, s: SwitchState, reading: Option<DeviceValues>,
                                 difference: (DeviceValues, DeviceValues) -> Option<DeviceValues>, now: int, writeOk: bool)
    requires conf.onlyTriggerOnChange && reading.Some?
    requires CalculateRelevantBound(conf, difference(conf.targetValue, reading.value)) == Value(s.previousValue)
    ensures React(conf, s, reading, difference, now, writeOk) == Reaction(None, s)
  {
  }

  /** Outside the window, a successful comparison writes its action unless it only repeats
      the last one on a switch that triggers on change; the action becomes the previous one. */
  lemma WritesTheBoundOutsideWindow(conf: SwitchConfig, s: SwitchState, reading: Option<DeviceValues>,
                                    difference: (DeviceValues, DeviceValues) -> Option<DeviceValues>, now: int, writeOk: bool)
    requires reading.Some? && now >= s.switchedStatesAt + conf.stayInState
    requires CalculateRelevantBound(conf, difference(conf.targetValue, reading.value)).Value?
    ensures var v := CalculateRelevantBound(conf, difference(conf.targetValue, reading.value)).value;
            var r := React(conf, s, reading, difference, now, writeOk);
              (r.written.Some? <==> v != s.previousValue || !conf.onlyTriggerOnChange) &&
              (r.written.Some? ==> r.written == Some(v) && r.state == SwitchState(if writeOk then now else s.switchedStatesAt, v))
  {
  }

  /** Repeating a round with the same reading at the same time writes nothing the second
      time, for a switch that only triggers on change. */
  lemma {:induction false} RepeatedRoundWritesNothing(conf: SwitchConfig, s: SwitchState, reading: Option<DeviceValues>,
                                                      difference: (DeviceValues, DeviceValues) -> Option<DeviceValues>, now: int, writeOk: bool)
    requires conf.onlyTriggerOnChange && reading.Some?
    requires CalculateRelevantBound(conf, difference(conf.targetValue, reading.value)).Value?
    ensures var first := React(conf, s, reading, difference, now, writeOk);
              React(conf, first.state, reading, difference, now, writeOk).written.None?
  {
    var first := React(conf, s, reading, difference, now, writeOk);
    if first.written.Some? {
      WritesTheBoundOutsideWindow(conf, s, reading, difference, now, writeOk);
      NoRepeatWhenOnlyOnChange(conf, first.state, reading, difference, now, writeOk);
    } else {
      assert first.state == s;
    }
  }

  /** `SwitchDriver`: the configuration it owns and the state of its last switch. */
  class SwitchDriver {
    var conf: SwitchConfig
    var switchedStatesAt: int
    var previousValue: DeviceValues
    /** `DeviceValues::difference`, which is not part of this model. */
    const difference: (DeviceValues, DeviceValues) -> Option<DeviceValues>

    /** A new driver has switched at the clock's epoch and holds the default `DeviceValues`
        (`initialPrevious`) as its previous value. */
    constructor (c: SwitchConfig, diff: (DeviceValues, DeviceValues) -> Option<DeviceValues>, initialPrevious: DeviceValues)
      ensures conf == c && difference == diff
      ensures switchedStatesAt == 0 && previousValue == initialPrevious
    {
      conf := c;
      difference := diff;
      switchedStatesAt := 0;
      previousValue := initialPrevious;
    }

    function State(): SwitchState
      reads this
    {
      SwitchState(switchedStatesAt, previousValue)
    }

    /** `writeValueToDevice`: `writeOk` is what the device reported. */
    method WriteValueToDevice(v: DeviceValues, now: int, writeOk: bool) returns (ok: bool)
      modifies this
      ensures ok == writeOk && conf == old(conf) && previousValue == old(previousValue)
      ensures switchedStatesAt == if writeOk then now else old(switchedStatesAt)
    {
      if writeOk {
        switchedStatesAt := now;
        return true;
      }
      ok := false;
    }

    /** `enableSafety`: writes the argument of the configured default action. */
    method EnableSafety(now: int, writeOk: bool) returns (written: DeviceValues)
      modifies this
      ensures written == Argument(conf, conf.defaultValue)
      ensures State() == AfterWrite(old(State()), now, writeOk) && conf == old(conf)
    {
      written := if conf.defaultValue == Low then conf.lowValueArgument
                 else if conf.defaultValue == Neutral then conf.neutralValueArgument
                 else conf.highValueArgument;
      var _ := WriteValueToDevice(written, now, writeOk);
    }

    /** `watchValuesAndReact`: one round, returning what it wrote to the target device. */
    method WatchValuesAndReact(reading: Option<DeviceValues>, now: int, writeOk: bool) returns (written: Option<DeviceValues>)
      modifies this
      ensures conf == old(conf)
      ensures Reaction(written, State()) == React(conf, old(State()), reading, difference, now, writeOk)
    {
      if reading.None? {
        var v := EnableSafety(now, writeOk);
        return Some(v);
      }
      var valueToSet := CalculateRelevantBound(conf, difference(conf.targetValue, reading.value));
      if valueToSet.Unexpected? {
        var v := EnableSafety(now, writeOk);
        return Some(v);
      }
      if switchedStatesAt + conf.stayInState > now {
        return None;
      }
      var valueChanged := valueToSet.value != previousValue;
      if !(valueChanged || !conf.onlyTriggerOnChange) {
        return None;
      }
      var _ := WriteValueToDevice(valueToSet.value, now, writeOk);
      previousValue := valueToSet.value;
      written := Some(valueToSet.value);
    }

    /** `write_value`: a new target value is taken only in the switch's unit. */
    method WriteValue(v: DeviceValues) returns (r: DeviceOperationResult)
      modifies this
      ensures r == OperationOk <==> v.unit == old(conf).deviceUnit
      ensures r != OperationOk ==> r == OperationFailure && conf == old(conf)
      ensures r == OperationOk ==> conf == old(conf).(targetValue := v)
      ensures State() == old(State())
    {
      if v.unit != conf.deviceUnit {
        return OperationFailure;
      }
      conf := conf.(targetValue := v);
      r := OperationOk;
    }

    /** `read_value`: only "targetValue" is readable. */
    function ReadValue(what: string): (r: (DeviceOperationResult, Option<DeviceValues>))
      reads this
      ensures r.0 == OperationOk <==> what == "targetValue"
      ensures r.0 != OperationOk ==> r == (NotSupported, None)
      ensures r.0 == OperationOk ==> r.1 == Some(conf.targetValue)
    {
      if what == "targetValue" then (OperationOk, Some(conf.targetValue)) else (NotSupported, None)
    }
  }
}
