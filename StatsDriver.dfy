/**
 * The statistics driver: a process-wide table of the statistics settings in use, each naming
 * a device and a measuring interval, and the periodic task that reads every device whose
 * interval has passed and records when it did.
 */
module StatsDrivers {
  import opened Wrappers
  import opened Algorithms

  /** `SingleStatSettings`: the device to measure, the interval in minutes, and the minute of
      the day of the last successful measurement. */
  class StatSettings {
    const deviceIndex: nat
    const statInterval: int
    var lastChecked: int

    constructor (device: nat, interval: int, checked: int)
      ensures deviceIndex == device && statInterval == interval && lastChecked == checked
    {
      deviceIndex := device;
      statInterval := interval;
      lastChecked := checked;
    }
  }

  /** No two registered settings measure the same device (and so no settings object is
      registered twice). */
  predicate DistinctDevices(s: seq<StatSettings?>) {
    forall i, j :: 0 <= i < j < |s| && s[i] != null && s[j] != null ==> s[i].deviceIndex != s[j].deviceIndex
  }

  /** The settings already registered, or another measuring the same device. */
  predicate InUse(s: seq<StatSettings?>, x: StatSettings) {
    exists i :: 0 <= i < |s| && s[i] != null && (s[i] == x || s[i].deviceIndex == x.deviceIndex)
  }

  /** `add_stat` on the slots: a null pointer, settings in use, or a full table are refused;
      otherwise the settings take the first empty slot. */
  function Added(s: seq<StatSettings?>, x: StatSettings?): (r: (bool, seq<StatSettings?>))
  {
    if x == null || InUse(s, x) then (false, s)
    else match Find(s, null) {
      case None => (false, s)
      case Some(k) => (true, s[k := x])
    }
  }

  /** `remove_stat` on the slots: the slot holding the settings is emptied. */
  function Removed(s: seq<StatSettings?>, x: StatSettings?): (r: (bool, seq<StatSettings?>))
  {
    if x == null then (false, s)
    else match Find(s, x) {
      case None => (false, s)
      case Some(k) => (true, s[k := null])
    }
  }

  /** Adding succeeds exactly for new settings of a new device while a slot is free, and the
      table keeps one settings object per device. */
  lemma AddKeepsDevicesDistinct(s: seq<StatSettings?>, x: StatSettings?)
    requires DistinctDevices(s)
    ensures var (ok, t) := Added(s, x);
              (ok <==> x != null && !InUse(s, x) && null in s) && (!ok ==> t == s) &&
              (ok ==> x in t) && DistinctDevices(t)
  {
    var (ok, t) := Added(s, x);
    if ok {
      var k := Find(s, null).value;
      assert t[k] == x;
      forall i, j | 0 <= i < j < |t| && t[i] != null && t[j] != null
        ensures t[i].deviceIndex != t[j].deviceIndex
      {
        if i == k {
          assert s[j] != null && !(s[j] == x || s[j].deviceIndex == x.deviceIndex);
        } else if j == k {
          assert s[i] != null && !(s[i] == x || s[i].deviceIndex == x.deviceIndex);
        }
      }
    }
  }

  /** Removing succeeds exactly for registered settings, and then they are gone. */
  lemma RemoveUnregisters(s: seq<StatSettings?>, x: StatSettings?)
    requires DistinctDevices(s)
    ensures var (ok, t) := Removed(s, x);
              (ok <==> x != null && x in s) && (!ok ==> t == s) &&
              (x != null ==> x !in t) && DistinctDevices(t)
  {
    var (ok, t) := Removed(s, x);
    if ok {
      var k := Find(s, x).value;
      forall i | 0 <= i < |t|
        ensures t[i] != x
      {
        if i < k {
          assert s[i] != x;
        } else if i > k && s[i] != null {
          assert s[k].deviceIndex != s[i].deviceIndex;
        }
      }
    }
  }

  /** Registering settings and removing them again restores the table. */
  lemma AddThenRemoveRestores(s: seq<StatSettings?>, x: StatSettings?)
    ensures var (ok, t) := Added(s, x);
              ok ==> Removed(t, x) == (true, s)
  {
    var (ok, t) := Added(s, x);
    if ok {
      var k := Find(s, null).value;
      assert forall i :: 0 <= i < |s| && i != k ==> t[i] == s[i] && s[i] != x;
      assert t[k] == x;
      assert t[k := null] == s;
    }
  }

  /** What the measuring task sees of one registered settings object. */
  datatype StatView = StatView(deviceIndex: nat, statInterval: int, lastChecked: int)

  /** A statistic is due when at least its interval has passed since its last measurement,
      in either direction across midnight. */
  function Due(now: int, v: StatView): (r: bool)
    ensures r <==> now >= v.lastChecked + v.statInterval || now <= v.lastChecked - v.statInterval
  {
    Abs(now - v.lastChecked) >= v.statInterval
  }

  /** One round of `stats_driver_task` at minute `now` of the day: a due statistic whose
      device answers (`readOk`) records `now`; every other slot is left alone. */
  function AfterRound(views: seq<Option<StatView>>, now: int, readOk: nat -> bool): (r: seq<Option<StatView>>)
    ensures |r| == |views|
  {
    seq(|views|, i requires 0 <= i < |views| =>
      match views[i] {
        case None => None
        case Some(v) => if Due(now, v) && readOk(v.deviceIndex) then Some(v.(lastChecked := now)) else Some(v)
      })
  }

  /** A round changes only the measurement time, and only of due statistics whose device
      answered. */
  lemma RoundUpdatesOnlyMeasured(views: seq<Option<StatView>>, now: int, readOk: nat -> bool, i: nat)
    requires i < |views|
    ensures var r := AfterRound(views, now, readOk);
              (r[i].None? <==> views[i].None?) &&
              (views[i].Some? ==> r[i].value == views[i].value.(lastChecked := r[i].value.lastChecked)) &&
              (views[i].Some? && r[i] != views[i] ==> Due(now, views[i].value) && readOk(views[i].value.deviceIndex) && r[i].value.lastChecked == now)
  {
  }

  /** With positive intervals, a second round in the same minute measures nothing more. */
  lemma RoundIsIdempotent(views: seq<Option<StatView>>, now: int, readOk: nat -> bool)
    requires forall i :: 0 <= i < |views| && views[i].Some? ==> views[i].value.statInterval > 0
    ensures AfterRound(AfterRound(views, now, readOk), now, readOk) == AfterRound(views, now, readOk)
  {
  }

  /** `StatsData`: the table of registered settings. */
  class StatsRegistry {
    const slots: array<StatSettings?>

    ghost predicate Valid()
      reads this, slots
    {
      DistinctDevices(slots[..])
    }

    ghost function Objects(): set<StatSettings>
      reads this, slots
    {
      set i | 0 <= i < slots.Length && slots[i] != null :: slots[i]
    }

    /** What the task sees of every slot. */
    ghost function Views(): (r: seq<Option<StatView>>)
      reads this, slots, Objects()
      ensures |r| == slots.Length
    {
      seq(slots.Length, i requires 0 <= i < slots.Length reads slots, if 0 <= i < slots.Length then {slots[i]} else {} =>
        if slots[i] == null then None
        else Some(StatView(slots[i].deviceIndex, slots[i].statInterval, slots[i].lastChecked)))
    }

    /** An empty table of `n` slots. */
    constructor (n: nat)
      ensures Valid() && fresh(slots) && slots.Length == n
      ensures forall i :: 0 <= i < n ==> slots[i] == null
    {
      slots := new StatSettings?[n](_ => null);
    }

    /** `add_stat`. */
    method AddStat(x: StatSettings?) returns (ok: bool)
      requires Valid()
      modifies slots
      ensures Valid()
      ensures (ok, slots[..]) == Added(old(slots[..]), x)
    {
      ghost var s := slots[..];
      if x == null {
        return false;
      }
      var i := 0;
      while i < slots.Length
        invariant i <= slots.Length
        invariant forall j :: 0 <= j < i ==> !(s[j] != null && (s[j] == x || s[j].deviceIndex == x.deviceIndex))
      {
        if slots[i] != null && (slots[i] == x || slots[i].deviceIndex == x.deviceIndex) {
          assert InUse(s, x);
          return false;
        }
        i := i + 1;
      }
      i := 0;
      while i < slots.Length
        invariant i <= slots.Length
        invariant forall j :: 0 <= j < i ==> slots[j] != null
      {
        if slots[i] == null {
          assert Find(s, null) == Some(i);
          slots[i] := x;
          AddKeepsDevicesDistinct(s, x);
          return true;
        }
        i := i + 1;
      }
      ok := false;
    }

    /** `remove_stat`. */
    method RemoveStat(x: StatSettings?) returns (ok: bool)
      requires Valid()
      modifies slots
      ensures Valid()
      ensures (ok, slots[..]) == Removed(old(slots[..]), x)
    {
      ghost var s := slots[..];
      if x == null {
        return false;
      }
      var i := 0;
      while i < slots.Length
        invariant i <= slots.Length
        invariant forall j :: 0 <= j < i ==> slots[j] != x
      {
        if slots[i] == x {
          assert Find(s, x) == Some(i);
          slots[i] := null;
          RemoveUnregisters(s, x);
          return true;
        }
        i := i + 1;
      }
      ok := false;
    }

    /** Different slots of a valid table hold different settings objects. */
    lemma DistinctObjects(i: nat, j: nat)
      requires Valid() && i < j < slots.Length && slots[i] != null && slots[j] != null
      ensures slots[i] != slots[j]
    {
      assert slots[..][i] == slots[i] && slots[..][j] == slots[j];
    }

    /** `stats_driver_task` at minute `now` of the day; `readOk` is whether a device answers. */
    method MeasureDue(now: int, readOk: nat -> bool)
      requires Valid()
      modifies Objects()
      ensures Valid()
      ensures Views() == AfterRound(old(Views()), now, readOk)
    {
      ghost var before := Views();
      var i := 0;
      while i < slots.Length
        invariant i <= slots.Length
        invariant forall j :: 0 <= j < slots.Length && slots[j] != null ==>
                    slots[j].lastChecked ==
                      if j < i && Due(now, before[j].value) && readOk(slots[j].deviceIndex) then now
                      else before[j].value.lastChecked
      {
        var current := slots[i];
        if current == null {
          i := i + 1;
          continue;
        }
        var timeSinceLastMeasure := Abs(now - current.lastChecked);
        if timeSinceLastMeasure < current.statInterval {
          i := i + 1;
          continue;
        }
        if readOk(current.deviceIndex) {
          current.lastChecked := now;
        }
        forall j | 0 <= j < slots.Length && j != i && slots[j] != null
          ensures slots[j] != current
        {
          if j < i {
            DistinctObjects(j, i);
          } else {
            DistinctObjects(i, j);
          }
        }
        i := i + 1;
      }
      assert forall j :: 0 <= j < slots.Length ==> Views()[j] == AfterRound(before, now, readOk)[j];
    }
  }
}
