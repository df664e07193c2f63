/**
 * The schedule driver: a configuration naming each schedule channel and the device it
 * drives, an id packed from those device indices, the parsing of a day's time points into a
 * day schedule, and the periodic update that writes every channel's current value to its
 * device.
 */
module ScheduleDrivers {
  import opened Wrappers
  import Bitsets
  import opened TimeUtils
  import opened DaySchedules
  import opened TrackerTypes
  import opened ScheduleTrackers
  import opened DeviceTypes

  /** The time points of one day (`WeekSchedule<schedule_max_num_channels, float, 12>`). */
  const TimePointsPerDay: nat := 12

  /** `numberOfBits`: the number of binary digits of `x`, and 0 for 0. */
  function NumberOfBits(x: nat): (r: nat)
    ensures x == 0 ==> r == 0
    ensures x > 0 ==> r >= 1 && Bitsets.Pow2(r - 1) <= x < Bitsets.Pow2(r)
  {
    if x < 2 then x else 1 + NumberOfBits(x / 2)
  }

  /** A device index below the device count fits in the field width the id uses. */
  lemma DeviceIndexFitsField(maxDevices: nat, d: nat)
    requires d < maxDevices
    ensures d < Bitsets.Pow2(NumberOfBits(maxDevices))
  {
  }

  /** The id is a `uint16_t`; the model holds it as its 16 bits, bit `k` at position `k`. */
  const IdWidth: nat := 16

  /** Bit `k` of `static_cast<uint16_t>(d)`. */
  predicate Bit(d: int, k: nat) {
    (d % 0x1_0000) / Bitsets.Pow2(k) % 2 == 1
  }

  /** One channel's part of the id: the device index shifted left by `shift`; what lands at
      bit 16 or beyond is cut off when the id is stored. */
  function IdPart(d: int, shift: nat): (r: seq<bool>)
    ensures |r| == IdWidth
    ensures forall k :: 0 <= k < shift && k < IdWidth ==> !r[k]
    ensures forall k :: shift <= k < IdWidth ==> r[k] == Bit(d, k - shift)
  {
    seq(IdWidth, k requires 0 <= k < IdWidth => shift <= k && Bit(d, k - shift))
  }

  /** `|` on two ids. */
  function Or(a: seq<bool>, b: seq<bool>): (r: seq<bool>)
    requires |a| == |b| == IdWidth
    ensures |r| == IdWidth && forall k :: 0 <= k < IdWidth ==> (r[k] <==> a[k] || b[k])
  {
    seq(IdWidth, k requires 0 <= k < IdWidth => a[k] || b[k])
  }

  function NoBits(): (r: seq<bool>)
    ensures |r| == IdWidth && forall k :: 0 <= k < IdWidth ==> !r[k]
  {
    seq(IdWidth, _ => false)
  }

  /** The id packed from the first `n` channels' device indices, `bits` bits per channel. */
  function CreateIdUpTo(indices: seq<Option<int>>, bits: nat, n: nat): (r: seq<bool>)
    requires n <= |indices|
    ensures |r| == IdWidth
  {
    if n == 0 then NoBits()
    else
      var rest := CreateIdUpTo(indices, bits, n - 1);
      if indices[n - 1].Some? then Or(rest, IdPart(indices[n - 1].value, bits * (n - 1))) else rest
  }

  /** Every device index is below 2^bits: none has a bit at `bits` or above. */
  predicate IndicesFit(indices: seq<Option<int>>, bits: nat) {
    forall i, k :: 0 <= i < |indices| && indices[i].Some? && bits <= k < IdWidth ==> !Bit(indices[i].value, k)
  }

  /** The first `n` channels set no bit at `bits * n` or above. */
  lemma {:induction false} CreateIdBelow(indices: seq<Option<int>>, bits: nat, n: nat)
    requires n <= |indices| && IndicesFit(indices, bits)
    ensures forall p :: bits * n <= p < IdWidth ==> !CreateIdUpTo(indices, bits, n)[p]
  {
    if n > 0 {
      CreateIdBelow(indices, bits, n - 1);
      var shift := bits * (n - 1);
      assert bits * n == shift + bits;
      if indices[n - 1].Some? {
        var part := IdPart(indices[n - 1].value, shift);
        forall p | bits * n <= p < IdWidth
          ensures !part[p]
        {
          assert !Bit(indices[n - 1].value, p - shift);
        }
      }
    }
  }

  /**
   * `createId`: when every device index fits in `bits` bits, bit `k < bits` of channel `i`'s
   * field (which starts at bit `bits * i`) is bit `k` of that channel's device index, and an
   * empty channel's field is clear, for every field bit inside the 16 bits of the id.
   */
  lemma {:induction false} CreateIdPlacesIndices(indices: seq<Option<int>>, bits: nat, n: nat)
    requires n <= |indices| && IndicesFit(indices, bits)
    ensures forall i, k :: 0 <= i < n && 0 <= k < bits && bits * i + k < IdWidth ==>
              (FieldBit(CreateIdUpTo(indices, bits, n), bits, i, k) <==> indices[i].Some? && Bit(indices[i].value, k))
  {
    if n > 0 {
      CreateIdPlacesIndices(indices, bits, n - 1);
      CreateIdBelow(indices, bits, n - 1);
      var shift := bits * (n - 1);
      var rest := CreateIdUpTo(indices, bits, n - 1);
      var id := CreateIdUpTo(indices, bits, n);
      forall i, k | 0 <= i < n && 0 <= k < bits && bits * i + k < IdWidth
        ensures FieldBit(id, bits, i, k) <==> indices[i].Some? && Bit(indices[i].value, k)
      {
        var p := bits * i + k;
        if i < n - 1 {
          MulMonotone(bits, i + 1, n - 1);
          assert p < shift;
          assert id[p] == rest[p];
          assert FieldBit(rest, bits, i, k) == rest[p];
        } else {
          assert p == shift + k;
          assert !rest[p];
          if indices[i].Some? {
            assert id[p] == IdPart(indices[i].value, shift)[p];
          }
        }
      }
    }
  }

  /** Bit `k` of field `i` of an id whose fields are `bits` wide. */
  function FieldBit(id: seq<bool>, bits: nat, i: nat, k: nat): bool
    requires bits * i + k < |id|
  {
    id[bits * i + k]
  }

  lemma MulMonotone(a: nat, b: nat, c: nat)
    requires b <= c
    ensures a * b <= a * c
  {
  }

  /** The `createId` lambda. */
  method CreateId(indices: seq<Option<int>>, bits: nat) returns (id: seq<bool>)
    ensures id == CreateIdUpTo(indices, bits, |indices|)
  {
    id := NoBits();
    var i := 0;
    while i < |indices|
      invariant i <= |indices|
      invariant id == CreateIdUpTo(indices, bits, i)
    {
      if indices[i].Some? {
        id := Or(id, IdPart(indices[i].value, bits * i));
      }
      i := i + 1;
    }
  }

  /** `ScheduleDriverData` without the storage paths. */
  datatype DriverConfig = DriverConfig(
    channelNames: seq<Option<string>>,
    deviceIndices: seq<Option<int>>,
    channelUnits: seq<Unit>,
    mode: TransitionMode,
    creationId: seq<bool>)

  /** The configuration's arrays all have one entry per schedule channel. */
  predicate ConfigValid(conf: DriverConfig) {
    |conf.channelNames| == |conf.deviceIndices| == |conf.channelUnits|
  }

  /** The first of the first `n` channels named `name`. */
  function ChannelOfUpTo(names: seq<Option<string>>, name: string, n: nat): (r: Option<nat>)
    requires n <= |names|
    ensures r.None? <==> forall i :: 0 <= i < n ==> names[i] != Some(name)
    ensures r.Some? ==> r.value < n && names[r.value] == Some(name)
    ensures r.Some? ==> forall i :: 0 <= i < r.value ==> names[i] != Some(name)
  {
    if n == 0 then None
    else match ChannelOfUpTo(names, name, n - 1)
      case Some(k) => Some(k)
      case None => if names[n - 1] == Some(name) then Some(n - 1) else None
  }

  function ChannelOf(names: seq<Option<string>>, name: string): Option<nat> {
    ChannelOfUpTo(names, name, |names|)
  }

  /** `channelIndex`: the first channel with the name; none without a configuration. */
  method ChannelIndex(conf: Option<DriverConfig>, name: string) returns (r: Option<nat>)
    ensures conf.None? ==> r.None?
    ensures conf.Some? ==> r == ChannelOf(conf.value.channelNames, name)
  {
    if conf.None? {
      return None;
    }
    var names := conf.value.channelNames;
    var i := 0;
    while i < |names|
      invariant i <= |names|
      invariant ChannelOfUpTo(names, name, i).None?
    {
      if names[i].Some? && names[i].value == name {
        assert ChannelOfUpTo(names, name, i + 1) == Some(i);
        return Some(i);
      }
      i := i + 1;
    }
    r := None;
  }

  /** The check of `create_driver`: a channel with a name but no device index, or the
      reverse, makes the configuration incomplete. */
  method MissingData(names: seq<Option<string>>, indices: seq<Option<int>>) returns (missing: bool)
    requires |names| == |indices|
    ensures missing <==> exists i :: 0 <= i < |indices| && names[i].Some? != indices[i].Some?
  {
    var i := 0;
    while i < |indices|
      invariant i <= |indices|
      invariant forall j :: 0 <= j < i ==> names[j].Some? == indices[j].Some?
    {
      if names[i].Some? != indices[i].Some? {
        return true;
      }
      i := i + 1;
    }
    missing := false;
  }

  /** `create_driver` from the parsed configuration: an incomplete one is refused; otherwise
      the configuration is stored with the id packed from its device indices. */
  method CreateDriverConfig(names: seq<Option<string>>, indices: seq<Option<int>>, units: seq<Unit>,
                            mode: TransitionMode, bitsForDevices: nat)
    returns (r: Option<DriverConfig>)
    requires |names| == |indices| == |units|
    ensures r.None? <==> exists i :: 0 <= i < |indices| && names[i].Some? != indices[i].Some?
    ensures r.Some? ==> ConfigValid(r.value)
    ensures r.Some? ==> r.value == DriverConfig(names, indices, units, mode, CreateIdUpTo(indices, bitsForDevices, |indices|))
  {
    var missing := MissingData(names, indices);
    if missing {
      return None;
    }
    var id := CreateId(indices, bitsForDevices);
    r := Some(DriverConfig(names, indices, units, mode, id));
  }

  /** One `name=value` of a time point; `value` is none when no number could be read. */
  datatype VariableMatch = VariableMatch(variable: string, value: Option<real>)

  /** One `hh-mm:vars` match; the pattern only admits hours 00-23 and minutes 00-59. */
  datatype TimePointMatch = TimePointMatch(hours: nat, mins: nat, vars: seq<VariableMatch>)

  predicate WellFormed(ms: seq<TimePointMatch>) {
    forall m | m in ms :: m.hours < 24 && m.mins < 60
  }

  function MatchTime(m: TimePointMatch): int {
    m.hours * 3600 + m.mins * 60
  }

  /** A variable with a number and a configured channel name. */
  predicate Resolves(names: seq<Option<string>>, v: VariableMatch) {
    v.value.Some? && ChannelOf(names, v.variable).Some?
  }

  predicate AllResolve(names: seq<Option<string>>, ms: seq<TimePointMatch>) {
    forall i, j :: 0 <= i < |ms| && 0 <= j < |ms[i].vars| ==> Resolves(names, ms[i].vars[j])
  }

  /** The channel values of a time point: each resolved variable sets its channel, a later one
      overriding an earlier one. */
  function PointData(names: seq<Option<string>>, vars: seq<VariableMatch>): (r: seq<Option<real>>)
    ensures |r| == |names|
  {
    if vars == [] then seq(|names|, _ => None)
    else
      var prev := PointData(names, vars[..|vars| - 1]);
      var v := vars[|vars| - 1];
      if Resolves(names, v) then prev[ChannelOf(names, v.variable).value := v.value] else prev
  }

  /** The time points the matches describe: one per match with at least one variable. */
  function Points(names: seq<Option<string>>, ms: seq<TimePointMatch>): (r: seq<TimePoint<real>>)
    ensures |r| <= |ms|
    ensures forall k :: 0 <= k < |r| ==> |r[k].data| == |names|
  {
    if ms == [] then []
    else
      var last := ms[|ms| - 1];
      Points(names, ms[..|ms| - 1]) +
        (if |last.vars| > 0 then [TimePoint(MatchTime(last), PointData(names, last.vars))] else [])
  }

  /** Times of well-formed matches are times of day, before `InvalidTime`. */
  lemma {:induction false} PointTimesValid(names: seq<Option<string>>, ms: seq<TimePointMatch>)
    requires WellFormed(ms)
    ensures forall k :: 0 <= k < |Points(names, ms)| ==> 0 <= Points(names, ms)[k].time < InvalidTime
  {
    if ms != [] {
      var last := ms[|ms| - 1];
      assert last in ms;
      assert WellFormed(ms[..|ms| - 1]) by {
        forall x | x in ms[..|ms| - 1] ensures x.hours < 24 && x.mins < 60 {
          assert x in ms;
        }
      }
      PointTimesValid(names, ms[..|ms| - 1]);
    }
  }

  lemma {:induction false} PointsPrefix(names: seq<Option<string>>, ms: seq<TimePointMatch>, i: nat)
    requires i <= |ms|
    ensures Points(names, ms[..i]) <= Points(names, ms)
  {
    if i < |ms| {
      PointsPrefix(names, ms[..|ms| - 1], i);
      assert ms[..|ms| - 1][..i] == ms[..i];
    } else {
      assert ms[..i] == ms;
    }
  }

  predicate DistinctTimes(ps: seq<TimePoint<real>>) {
    forall i, j :: 0 <= i < j < |ps| ==> ps[i].time != ps[j].time
  }

  /** Every variable resolves, and the time points have distinct times and fit in a day. */
  predicate Storable(names: seq<Option<string>>, ms: seq<TimePointMatch>) {
    var ps := Points(names, ms);
    AllResolve(names, ms) && DistinctTimes(ps) && |ps| <= TimePointsPerDay
  }

  /** When `parseDaySchedule` as written yields a schedule: the data must be storable and the
      LAST match must carry a variable. */
  predicate ParseSucceedsAsWritten(names: seq<Option<string>>, ms: seq<TimePointMatch>) {
    Storable(names, ms) && |ms| > 0 && |ms[|ms| - 1].vars| > 0
  }

  /** When the corrected parse yields a schedule: the data must be storable and some match must
      carry a variable. */
  predicate ParseSucceeds(names: seq<Option<string>>, ms: seq<TimePointMatch>) {
    Storable(names, ms) && |Points(names, ms)| > 0
  }

  /** An unused slot of a fresh day schedule. */
  function EmptyPoint(numChannels: nat): TimePoint<real> {
    TimePoint(InvalidTime, seq(numChannels, _ => None))
  }

  function Empties(numChannels: nat, k: nat): multiset<TimePoint<real>> {
    multiset{}[EmptyPoint(numChannels) := k]
  }

  lemma {:induction false} AllEmpty(s: seq<TimePoint<real>>, numChannels: nat)
    requires forall i :: 0 <= i < |s| ==> s[i] == EmptyPoint(numChannels)
    ensures multiset(s) == Empties(numChannels, |s|)
  {
    if s != [] {
      AllEmpty(s[..|s| - 1], numChannels);
      assert s == s[..|s| - 1] + [s[|s| - 1]];
    }
  }

  /** A day whose slots hold the points `ps` and `free` unused slots accepts a new point exactly
      when a slot is free and its time is new, and then holds one point more. */
  lemma InsertStep(s: seq<TimePoint<real>>, ps: seq<TimePoint<real>>, numChannels: nat, free: nat, p: TimePoint<real>)
    requires multiset(s) == multiset(ps) + Empties(numChannels, free)
    requires forall k :: 0 <= k < |ps| ==> ps[k].time != InvalidTime
    requires p.time != InvalidTime
    ensures InsertAccepted(s, p.time) <==> free > 0 && forall k :: 0 <= k < |ps| ==> ps[k].time != p.time
    ensures InsertAccepted(s, p.time) ==>
              multiset(s[FindTime(s, InvalidTime).value := p]) == multiset(ps + [p]) + Empties(numChannels, free - 1)
  {
    var e := EmptyPoint(numChannels);
    if FindTime(s, InvalidTime).Some? {
      var x := s[FindTime(s, InvalidTime).value];
      assert x in multiset(s);
      assert x !in ps;
      assert x == e;
    }
    if free > 0 {
      assert e in multiset(s);
      assert e in s;
    }
    if FindTime(s, p.time).Some? {
      var x := s[FindTime(s, p.time).value];
      assert x in multiset(s);
      assert x != e;
      assert x in multiset(ps);
      assert x in ps;
    }
    forall k | 0 <= k < |ps|
      ensures ps[k] in s
    {
      assert ps[k] in multiset(ps);
      assert ps[k] in multiset(s);
    }
    if InsertAccepted(s, p.time) {
      var k := FindTime(s, InvalidTime).value;
      assert s[k] == e;
      calc {
        multiset(s[k := p]);
        multiset(s) - multiset{e} + multiset{p};
        multiset(ps) + multiset{p} + Empties(numChannels, free - 1);
        { assert multiset(ps + [p]) == multiset(ps) + multiset{p}; }
        multiset(ps + [p]) + Empties(numChannels, free - 1);
      }
    }
  }

  /** The variables of one match, in order: a variable without a number or with an unknown
      channel name ends the parse; otherwise its value goes to its channel. */
  method ParsePointData(names: seq<Option<string>>, vars: seq<VariableMatch>)
    returns (ok: bool, data: seq<Option<real>>)
    ensures ok <==> forall j :: 0 <= j < |vars| ==> Resolves(names, vars[j])
    ensures ok ==> data == PointData(names, vars)
  {
    data := seq(|names|, _ => None);
    var j := 0;
    while j < |vars|
      invariant j <= |vars|
      invariant forall k :: 0 <= k < j ==> Resolves(names, vars[k])
      invariant data == PointData(names, vars[..j])
    {
      var v := vars[j];
      assert vars[..j + 1][..j] == vars[..j];
      if v.value.None? {
        return false, data;
      }
      var c := ChannelIndex(Some(DriverConfig(names, [], [], Hold, NoBits())), v.variable);
      if c.None? {
        return false, data;
      }
      data := data[c.value := v.value];
      j := j + 1;
    }
    assert vars[..j] == vars;
    ok := true;
  }

  /** A match whose variable does not resolve makes the whole input unstorable. */
  lemma UnresolvedBlocksParse(names: seq<Option<string>>, ms: seq<TimePointMatch>, i: nat)
    requires i < |ms| && !forall j :: 0 <= j < |ms[i].vars| ==> Resolves(names, ms[i].vars[j])
    ensures !Storable(names, ms)
  {
  }

  /** A rejected insert makes the whole input unstorable: either the day already held as many
      points as it has slots, or the time was already scheduled. */
  lemma RejectedInsertBlocksParse(names: seq<Option<string>>, ms: seq<TimePointMatch>, i: nat)
    requires i < |ms| && |ms[i].vars| > 0
    requires var before := Points(names, ms[..i]);
               |before| == TimePointsPerDay || exists k :: 0 <= k < |before| && before[k].time == MatchTime(ms[i])
    ensures !Storable(names, ms)
  {
    var before := Points(names, ms[..i]);
    var after := Points(names, ms[..i + 1]);
    PointsStep(names, ms, i);
    StorablePrefix(names, ms, i + 1);
    if |before| < TimePointsPerDay {
      var k :| 0 <= k < |before| && before[k].time == MatchTime(ms[i]);
      assert after[k].time == after[|before|].time;
    }
  }

  /** Every prefix of storable matches describes distinct times that fit in a day. */
  lemma StorablePrefix(names: seq<Option<string>>, ms: seq<TimePointMatch>, j: nat)
    requires j <= |ms|
    ensures Storable(names, ms) ==>
              DistinctTimes(Points(names, ms[..j])) && |Points(names, ms[..j])| <= TimePointsPerDay
  {
    PointsPrefix(names, ms, j);
  }

  lemma PointsStep(names: seq<Option<string>>, ms: seq<TimePointMatch>, i: nat)
    requires i < |ms|
    ensures Points(names, ms[..i + 1]) == Points(names, ms[..i]) +
              (if |ms[i].vars| > 0 then [TimePoint(MatchTime(ms[i]), PointData(names, ms[i].vars))] else [])
  {
    assert ms[..i + 1][..i] == ms[..i];
  }

  lemma ResolveStep(names: seq<Option<string>>, ms: seq<TimePointMatch>, i: nat)
    requires i < |ms| && AllResolve(names, ms[..i])
    requires forall j :: 0 <= j < |ms[i].vars| ==> Resolves(names, ms[i].vars[j])
    ensures AllResolve(names, ms[..i + 1])
  {
    forall x | 0 <= x < i + 1
      ensures ms[..i + 1][x] == ms[x]
    {
    }
    forall x | 0 <= x < i
      ensures ms[..i][x] == ms[x]
    {
    }
  }

  lemma TimesBeforeValid(names: seq<Option<string>>, ms: seq<TimePointMatch>, i: nat)
    requires i < |ms| && WellFormed(ms)
    ensures forall k :: 0 <= k < |Points(names, ms[..i])| ==> Points(names, ms[..i])[k].time != InvalidTime
    ensures MatchTime(ms[i]) != InvalidTime
  {
    assert WellFormed(ms[..i]) by {
      forall x | x in ms[..i] ensures x.hours < 24 && x.mins < 60 {
        assert x in ms;
      }
    }
    PointTimesValid(names, ms[..i]);
    assert ms[i] in ms;
  }

  lemma DistinctStep(ps: seq<TimePoint<real>>, p: TimePoint<real>)
    requires DistinctTimes(ps) && forall k :: 0 <= k < |ps| ==> ps[k].time != p.time
    ensures DistinctTimes(ps + [p])
  {
  }

  /** The slots after the first `i` matches went in: their points and the rest unused. */
  ghost predicate Progress(slots: seq<TimePoint<real>>, names: seq<Option<string>>, ms: seq<TimePointMatch>, i: nat)
    requires i <= |ms|
  {
    var ps := Points(names, ms[..i]);
    AllResolve(names, ms[..i]) && DistinctTimes(ps) && |ps| <= TimePointsPerDay &&
    multiset(slots) == multiset(ps) + Empties(|names|, TimePointsPerDay - |ps|)
  }

  /** The last of the first `n` matches carries a variable. */
  predicate LastHasVariable(ms: seq<TimePointMatch>, n: nat)
    requires n <= |ms|
  {
    n > 0 && |ms[n - 1].vars| > 0
  }

  /** Some of the first `n` matches carries a variable. */
  predicate AnyVariableUpTo(ms: seq<TimePointMatch>, n: nat)
    requires n <= |ms|
  {
    n > 0 && (AnyVariableUpTo(ms, n - 1) || |ms[n - 1].vars| > 0)
  }

  /** The first `n` matches describe some time point exactly when one of them carries a
      variable. */
  lemma {:induction false} SomePointIffSomeVariable(names: seq<Option<string>>, ms: seq<TimePointMatch>, n: nat)
    requires n <= |ms|
    ensures |Points(names, ms[..n])| > 0 <==> AnyVariableUpTo(ms, n)
  {
    if n > 0 {
      SomePointIffSomeVariable(names, ms, n - 1);
      PointsStep(names, ms, n - 1);
    }
  }

  /** Once every match went in, the input is storable and the slots hold its points. */
  lemma ProgressComplete(slots: seq<TimePoint<real>>, names: seq<Option<string>>, ms: seq<TimePointMatch>)
    requires Progress(slots, names, ms, |ms|)
    ensures Storable(names, ms) && Points(names, ms[..|ms|]) == Points(names, ms)
    ensures multiset(slots) == multiset(Points(names, ms)) + Empties(|names|, TimePointsPerDay - |Points(names, ms)|)
  {
    assert ms[..|ms|] == ms;
  }

  /** One pass of the loop of `parseDaySchedule`: parse the match's variables and insert its
      time point when it has any. A failure means the input cannot be stored. */
  method AddMatch(schedule: DaySchedule<real>, names: seq<Option<string>>, ms: seq<TimePointMatch>, i: nat)
    returns (ok: bool)
    requires i < |ms| && WellFormed(ms)
    requires schedule.Valid() && schedule.NumChannels == |names|
    requires Progress(schedule.datapoints[..], names, ms, i)
    modifies schedule.datapoints
    ensures schedule.Valid()
    ensures ok ==> Progress(schedule.datapoints[..], names, ms, i + 1)
    ensures !ok ==> !Storable(names, ms)
  {
    var m := ms[i];
    ghost var before := Points(names, ms[..i]);
    PointsStep(names, ms, i);
    var parsed, data := ParsePointData(names, m.vars);
    if !parsed {
      UnresolvedBlocksParse(names, ms, i);
      return false;
    }
    ResolveStep(names, ms, i);
    if |m.vars| == 0 {
      return true;
    }
    var p := TimePoint(MatchTime(m), data);
    TimesBeforeValid(names, ms, i);
    InsertStep(schedule.datapoints[..], before, |names|, TimePointsPerDay - |before|, p);
    var couldInsert := schedule.InsertTimePoint(p.time, data);
    if !couldInsert {
      RejectedInsertBlocksParse(names, ms, i);
      return false;
    }
    DistinctStep(before, p);
    ok := true;
  }

  /** The data flag after the first `n` matches: with `resetPerMatch`, as the source writes
      it, only the last match counts; without, any match does. */
  predicate DataFlag(ms: seq<TimePointMatch>, n: nat, resetPerMatch: bool)
    requires n <= |ms|
  {
    if resetPerMatch then LastHasVariable(ms, n) else AnyVariableUpTo(ms, n)
  }

  /**
   * The loop of `parseDaySchedule` over the matches, on a day schedule that starts empty:
   * reports whether it ran to the end and the data flag. The source resets `containsData` at
   * each match (`resetPerMatch`); the corrected loop keeps it once set.
   */
  method AddMatches(schedule: DaySchedule<real>, names: seq<Option<string>>, ms: seq<TimePointMatch>,
                    resetPerMatch: bool)
    returns (completed: bool, containsData: bool)
    requires WellFormed(ms)
    requires schedule.Valid() && schedule.NumChannels == |names|
    requires Progress(schedule.datapoints[..], names, ms, 0)
    modifies schedule.datapoints
    ensures schedule.Valid()
    ensures !completed ==> !Storable(names, ms)
    ensures completed ==> Progress(schedule.datapoints[..], names, ms, |ms|)
    ensures completed ==> containsData == DataFlag(ms, |ms|, resetPerMatch)
  {
    containsData := false;
    var i := 0;
    while i < |ms|
      invariant i <= |ms|
      invariant schedule.Valid() && schedule.NumChannels == |names|
      invariant Progress(schedule.datapoints[..], names, ms, i)
      invariant containsData == DataFlag(ms, i, resetPerMatch)
    {
      var ok := AddMatch(schedule, names, ms, i);
      if !ok {
        return false, containsData;
      }
      if resetPerMatch {
        containsData := false;
      }
      if |ms[i].vars| > 0 {
        containsData := true;
      }
      i := i + 1;
    }
    completed := true;
  }

  /** `parseDaySchedule` up to its final test: builds a fresh day schedule and adds the
      matches to it. */
  method ParseTimePoints(names: seq<Option<string>>, ms: seq<TimePointMatch>, resetPerMatch: bool)
    returns (completed: bool, schedule: DaySchedule<real>, containsData: bool)
    requires WellFormed(ms)
    ensures fresh(schedule) && fresh(schedule.datapoints) && schedule.Valid()
    ensures schedule.NumChannels == |names| && schedule.datapoints.Length == TimePointsPerDay
    ensures completed <==> Storable(names, ms)
    ensures completed ==>
              multiset(schedule.datapoints[..]) ==
                multiset(Points(names, ms)) + Empties(|names|, TimePointsPerDay - |Points(names, ms)|)
    ensures completed && resetPerMatch ==> (containsData <==> |ms| > 0 && |ms[|ms| - 1].vars| > 0)
    ensures completed && !resetPerMatch ==> (containsData <==> |Points(names, ms)| > 0)
  {
    schedule := new DaySchedule<real>(|names|, TimePointsPerDay);
    AllEmpty(schedule.datapoints[..], |names|);
    completed, containsData := AddMatches(schedule, names, ms, resetPerMatch);
    if completed {
      ProgressComplete(schedule.datapoints[..], names, ms);
      SomePointIffSomeVariable(names, ms, |ms|);
    }
  }

  /** `parseDaySchedule` as written: after the loop it tests the flag that the LAST match left,
      so a schedule whose final match has no variables is refused even when earlier matches
      carried data. */
  method ParseDayScheduleAsWritten(names: seq<Option<string>>, ms: seq<TimePointMatch>)
    returns (r: Option<DaySchedule<real>>)
    requires WellFormed(ms)
    ensures r.Some? <==> ParseSucceedsAsWritten(names, ms)
    ensures r.Some? ==> fresh(r.value) && r.value.Valid() && r.value.NumChannels == |names|
    ensures r.Some? ==>
              multiset(r.value.datapoints[..]) ==
                multiset(Points(names, ms)) + Empties(|names|, TimePointsPerDay - |Points(names, ms)|)
  {
    var completed, schedule, containsData := ParseTimePoints(names, ms, true);
    if !completed || !containsData {
      return None;
    }
    r := Some(schedule);
  }

  /** `parseDaySchedule` as intended: a schedule is refused only when no match carried data. */
  method ParseDaySchedule(names: seq<Option<string>>, ms: seq<TimePointMatch>)
    returns (r: Option<DaySchedule<real>>)
    requires WellFormed(ms)
    ensures r.Some? <==> ParseSucceeds(names, ms)
    ensures r.Some? ==> fresh(r.value) && r.value.Valid() && r.value.NumChannels == |names|
    ensures r.Some? ==>
              multiset(r.value.datapoints[..]) ==
                multiset(Points(names, ms)) + Empties(|names|, TimePointsPerDay - |Points(names, ms)|)
  {
    var completed, schedule, containsData := ParseTimePoints(names, ms, false);
    if !completed || !containsData {
      return None;
    }
    r := Some(schedule);
  }

  /** Whatever the code as written accepts, the corrected parse accepts too, and both agree
      whenever the last match carries a variable. */
  lemma AsWrittenAcceptsLess(names: seq<Option<string>>, ms: seq<TimePointMatch>)
    ensures ParseSucceedsAsWritten(names, ms) ==> ParseSucceeds(names, ms)
    ensures |ms| > 0 && |ms[|ms| - 1].vars| > 0 ==>
              (ParseSucceedsAsWritten(names, ms) <==> ParseSucceeds(names, ms))
  {
    if |ms| > 0 && |ms[|ms| - 1].vars| > 0 {
      assert |Points(names, ms)| > 0;
    }
  }

  /** "08-00:a=1;20-00:" with a channel named "a": the first match sets a value, the last has
      none, and the code as written refuses the schedule the corrected parse accepts. */
  lemma AsWrittenDropsTrailingEmptyMatch()
    ensures var names, ms := [Some("a")], [TimePointMatch(8, 0, [VariableMatch("a", Some(1.0))]), TimePointMatch(20, 0, [])];
              !ParseSucceedsAsWritten(names, ms) && ParseSucceeds(names, ms) &&
              Points(names, ms) == [TimePoint(28800, [Some(1.0)])]
  {
    var names, ms := [Some("a")], [TimePointMatch(8, 0, [VariableMatch("a", Some(1.0))]), TimePointMatch(20, 0, [])];
    assert ChannelOf(names, "a") == Some(0);
    assert ms[..1][..0] == [];
    assert ms[..1] == [ms[0]];
    assert PointData(names, ms[0].vars) == [Some(1.0)];
    assert Points(names, ms[..1]) == [TimePoint(28800, [Some(1.0)])];
  }

  /** A variable sets channel `c`. */
  predicate SetsChannel(names: seq<Option<string>>, v: VariableMatch, c: nat) {
    Resolves(names, v) && ChannelOf(names, v.variable) == Some(c)
  }

  /** The last variable of a time point that does not set channel `c` leaves it as it was. */
  lemma PointDataOtherChannel(names: seq<Option<string>>, vars: seq<VariableMatch>, c: nat)
    requires c < |names| && vars != [] && !SetsChannel(names, vars[|vars| - 1], c)
    ensures PointData(names, vars)[c] == PointData(names, vars[..|vars| - 1])[c]
  {
  }

  /** A channel that no variable names holds no value. */
  lemma {:induction false} PointDataUnsetChannel(names: seq<Option<string>>, vars: seq<VariableMatch>, c: nat)
    requires c < |names| && forall j :: 0 <= j < |vars| ==> !SetsChannel(names, vars[j], c)
    ensures PointData(names, vars)[c].None?
  {
    if vars != [] {
      var init := vars[..|vars| - 1];
      assert forall j :: 0 <= j < |init| ==> init[j] == vars[j];
      PointDataUnsetChannel(names, init, c);
      PointDataOtherChannel(names, vars, c);
    }
  }

  /** A channel holds the value of the LAST variable that names it. */
  lemma {:induction false} PointDataLastWins(names: seq<Option<string>>, vars: seq<VariableMatch>, c: nat, j: nat)
    requires c < |names| && j < |vars| && SetsChannel(names, vars[j], c)
    requires forall k :: j < k < |vars| ==> !SetsChannel(names, vars[k], c)
    ensures PointData(names, vars)[c] == vars[j].value
  {
    var init := vars[..|vars| - 1];
    if j < |vars| - 1 {
      assert forall k :: 0 <= k < |init| ==> init[k] == vars[k];
      PointDataLastWins(names, init, c, j);
      PointDataOtherChannel(names, vars, c);
    }
  }

  /** A value sent to a device: `set_device_action(deviceIndex, "", create_from_unit(unit, value))`. */
  datatype DeviceWrite = DeviceWrite(channel: nat, deviceIndex: int, unit: Unit, value: real)

  /** Channel `c` has a new value and a device to receive it. */
  predicate Written(values: seq<Option<real>>, indices: seq<Option<int>>, c: nat) {
    c < |values| && values[c].Some? && c < |indices| && indices[c].Some?
  }

  /** The writes `updateValues` sends for the first `n` channels, in channel order. */
  function Writes(values: seq<Option<real>>, indices: seq<Option<int>>, units: seq<Unit>, n: nat): (r: seq<DeviceWrite>)
    requires n <= |values| && |indices| == |units|
    ensures forall k :: 0 <= k < |r| ==>
              r[k].channel < n && Written(values, indices, r[k].channel) &&
              r[k] == DeviceWrite(r[k].channel, indices[r[k].channel].value, units[r[k].channel], values[r[k].channel].value)
    ensures forall j, k :: 0 <= j < k < |r| ==> r[j].channel < r[k].channel
  {
    if n == 0 then []
    else
      var c := n - 1;
      Writes(values, indices, units, c) +
        (if Written(values, indices, c) then [DeviceWrite(c, indices[c].value, units[c], values[c].value)] else [])
  }

  /** Visiting channel `n` appends its write exactly when it is written. */
  lemma WritesStep(values: seq<Option<real>>, indices: seq<Option<int>>, units: seq<Unit>, n: nat)
    requires n < |values| && |indices| == |units|
    ensures Writes(values, indices, units, n + 1) ==
              if values[n].Some? && n < |indices| && indices[n].Some?
              then Writes(values, indices, units, n) + [DeviceWrite(n, indices[n].value, units[n], values[n].value)]
              else Writes(values, indices, units, n)
  {
  }

  /** The channels a sequence of writes reaches. */
  function Channels(r: seq<DeviceWrite>): set<nat> {
    set k | 0 <= k < |r| :: r[k].channel
  }

  /** Every channel with a value and a device is written. */
  lemma {:induction false} EveryWrittenChannelIsSent(values: seq<Option<real>>, indices: seq<Option<int>>, units: seq<Unit>, n: nat)
    requires n <= |values| && |indices| == |units|
    ensures forall c :: 0 <= c < n && Written(values, indices, c) ==> c in Channels(Writes(values, indices, units, n))
  {
    if n > 0 {
      EveryWrittenChannelIsSent(values, indices, units, n - 1);
      var prev := Writes(values, indices, units, n - 1);
      var extra := if Written(values, indices, n - 1)
                   then [DeviceWrite(n - 1, indices[n - 1].value, units[n - 1], values[n - 1].value)] else [];
      assert Writes(values, indices, units, n) == prev + extra;
      ChannelsOfAppend(prev, extra);
      if Written(values, indices, n - 1) {
        assert extra[0].channel == n - 1;
      }
    }
  }

  /** The channels of two sequences of writes, one after the other. */
  lemma ChannelsOfAppend(a: seq<DeviceWrite>, b: seq<DeviceWrite>)
    ensures Channels(a + b) == Channels(a) + Channels(b)
  {
    var ab := a + b;
    forall c | c in Channels(a) ensures c in Channels(ab) {
      var k :| 0 <= k < |a| && a[k].channel == c;
      assert ab[k] == a[k];
    }
    forall c | c in Channels(b) ensures c in Channels(ab) {
      var k :| 0 <= k < |b| && b[k].channel == c;
      assert ab[|a| + k] == b[k];
    }
    forall c | c in Channels(ab) ensures c in Channels(a) + Channels(b) {
      var k :| 0 <= k < |ab| && ab[k].channel == c;
      if k < |a| {
        assert ab[k] == a[k];
      } else {
        assert ab[k] == b[k - |a|];
      }
    }
  }

  /** The channel times after the first `n` channels were visited: a written channel records
      `tm`, the others keep their time. */
  function Stamped(times: seq<int>, values: seq<Option<real>>, indices: seq<Option<int>>, tm: Tm, n: nat): (r: seq<int>)
    ensures |r| == |times|
    ensures forall c :: 0 <= c < |times| ==>
              r[c] == if c < n && Written(values, indices, c) then SinceWeekBeginning(tm) else times[c]
  {
    seq(|times|, c requires 0 <= c < |times| =>
      if c < n && Written(values, indices, c) then SinceWeekBeginning(tm) else times[c])
  }

  /** Visiting channel `n` stamps it exactly when it is written. */
  lemma StampedStep(times: seq<int>, values: seq<Option<real>>, indices: seq<Option<int>>, tm: Tm, n: nat)
    requires n < |times|
    ensures Stamped(times, values, indices, tm, n + 1) ==
              if Written(values, indices, n) then Stamped(times, values, indices, tm, n)[n := SinceWeekBeginning(tm)]
              else Stamped(times, values, indices, tm, n)
  {
  }

  /** The values the tracker yields for each of its channels at `tm`. */
  ghost function CurrentValues(t: ScheduleTracker<real>, tm: Tm): (r: seq<Option<real>>)
    reads t, t.channelTimes, t.schedule, if t.schedule != null then {t.schedule.daySchedules} else {}
    requires t.Valid()
    ensures |r| == t.NumChannels
  {
    ChannelValues(t.View(), t.mode, t.channelTimes[..], t.interpolate, tm, t.NumChannels)
  }

  /** The driver: its stored configuration and the tracker over its week schedule. */
  class ScheduleDriver {
    const conf: DriverConfig
    const tracker: ScheduleTracker<real>

    constructor (c: DriverConfig, t: ScheduleTracker<real>)
      ensures conf == c && tracker == t
    {
      conf := c;
      tracker := t;
    }

    /**
     * `updateValues` at the date `tm`: every channel with a current value and a device index
     * sends the value to that device and records `tm` as its channel time; the others are
     * skipped. The writes are returned instead of performed.
     */
    method UpdateValues(tm: Tm) returns (writes: seq<DeviceWrite>, wasUpdated: bool)
      requires tracker.Valid() && ConfigValid(conf)
      modifies tracker.channelTimes
      ensures tracker.Valid()
      ensures writes == Writes(old(CurrentValues(tracker, tm)), conf.deviceIndices, conf.channelUnits, tracker.NumChannels)
      ensures wasUpdated <==> writes != []
      ensures forall c :: 0 <= c < tracker.NumChannels ==>
                tracker.channelTimes[c] ==
                  if Written(old(CurrentValues(tracker, tm)), conf.deviceIndices, c) then SinceWeekBeginning(tm)
                  else old(tracker.channelTimes[c])
    {
      ghost var expected := CurrentValues(tracker, tm);
      var values := tracker.GetCurrentChannelValues(tm);
      assert values == expected;
      writes, wasUpdated := SendValues(values, tm);
    }

    /** The loop of `updateValues` over the channel values already read from the tracker. */
    method SendValues(values: seq<Option<real>>, tm: Tm) returns (writes: seq<DeviceWrite>, wasUpdated: bool)
      requires tracker.Valid() && ConfigValid(conf) && |values| == tracker.NumChannels
      modifies tracker.channelTimes
      ensures tracker.Valid()
      ensures writes == Writes(values, conf.deviceIndices, conf.channelUnits, |values|)
      ensures wasUpdated <==> writes != []
      ensures tracker.channelTimes[..] == Stamped(old(tracker.channelTimes[..]), values, conf.deviceIndices, tm, |values|)
    {
      ghost var times := tracker.channelTimes[..];
      writes, wasUpdated := [], false;
      var i := 0;
      while i < |values|
        invariant i <= |values|
        invariant tracker.Valid()
        invariant writes == Writes(values, conf.deviceIndices, conf.channelUnits, i)
        invariant wasUpdated <==> writes != []
        invariant tracker.channelTimes[..] == Stamped(times, values, conf.deviceIndices, tm, i)
      {
        StampedStep(times, values, conf.deviceIndices, tm, i);
        WritesStep(values, conf.deviceIndices, conf.channelUnits, i);
        if values[i].Some? && i < |conf.deviceIndices| && conf.deviceIndices[i].Some? {
          writes := writes + [DeviceWrite(i, conf.deviceIndices[i].value, conf.channelUnits[i], values[i].value)];
          var _ := tracker.UpdateChannelTime(i, tm);
          wasUpdated := true;
        }
        i := i + 1;
      }
    }
  }
}
