/**
 * `DaySchedule<NumChannels, Datapoint, TimePointsPerDay>`: a fixed array of time points
 * for one day, each holding a time of day and one optional value per channel. Unused
 * slots carry `InvalidTime`; every insert and remove re-sorts the array by time, so the
 * used slots come first in ascending order. Times are in seconds; an iterator result of
 * the lookups is the slot index, and `end()` is `None`.
 */
module DaySchedules {
  import opened Wrappers

  /** 24 h + 1 min, later than any time of day. */
  const InvalidTime: int := 86460

  datatype TimePoint<D> = TimePoint(time: int, data: seq<Option<D>>)

  ghost predicate SortedByTime<D>(s: seq<TimePoint<D>>) {
    forall i, j :: 0 <= i < j < |s| ==> s[i].time <= s[j].time
  }

  /** The times of the used slots. */
  ghost function ScheduledTimes<D>(s: seq<TimePoint<D>>): set<int> {
    set p | p in s && p.time != InvalidTime :: p.time
  }

  /** `std::find_if`: the first position whose slot satisfies `p`. */
  function FirstWhere<D>(s: seq<TimePoint<D>>, p: TimePoint<D> -> bool): (r: Option<nat>)
    ensures r.None? <==> forall i :: 0 <= i < |s| ==> !p(s[i])
    ensures r.Some? ==> r.value < |s| && p(s[r.value])
    ensures r.Some? ==> forall i :: 0 <= i < r.value ==> !p(s[i])
  {
    if s == [] then None
    else if p(s[0]) then Some(0)
    else match FirstWhere(s[1..], p)
      case None => None
      case Some(k) => Some(k + 1)
  }

  /** `std::find_if` over the reversed range: the last position whose slot satisfies `p`. */
  function LastWhere<D>(s: seq<TimePoint<D>>, p: TimePoint<D> -> bool): (r: Option<nat>)
    ensures r.None? <==> forall i :: 0 <= i < |s| ==> !p(s[i])
    ensures r.Some? ==> r.value < |s| && p(s[r.value])
    ensures r.Some? ==> forall i :: r.value < i < |s| ==> !p(s[i])
  {
    if s == [] then None
    else if p(s[|s| - 1]) then Some(|s| - 1)
    else LastWhere(s[..|s| - 1], p)
  }

  /** `findSlotWithTime`: the first slot holding exactly time `t`. */
  function FindTime<D>(s: seq<TimePoint<D>>, t: int): (r: Option<nat>)
    ensures r.None? <==> forall i :: 0 <= i < |s| ==> s[i].time != t
    ensures r.Some? ==> r.value < |s| && s[r.value].time == t
    ensures r.Some? ==> forall i :: 0 <= i < r.value ==> s[i].time != t
  {
    FirstWhere(s, (x: TimePoint<D>) => x.time == t)
  }

  /** The condition under which `insertTimePoint` stores a point: a free slot exists and
      the time is not scheduled yet. */
  predicate InsertAccepted<D>(s: seq<TimePoint<D>>, eventAt: int) {
    FindTime(s, InvalidTime).Some? && FindTime(s, eventAt).None?
  }

  /** A point at `InvalidTime` is never stored: the free slot found counts as a duplicate. */
  lemma InsertRejectsInvalidTime<D>(s: seq<TimePoint<D>>)
    ensures !InsertAccepted(s, InvalidTime)
  {
  }

  /** An insert is rejected exactly when the day is full or the time is already used. */
  lemma InsertAcceptedCharacterized<D>(s: seq<TimePoint<D>>, eventAt: int)
    ensures InsertAccepted(s, eventAt) <==>
              (exists i :: 0 <= i < |s| && s[i].time == InvalidTime) &&
              (forall i :: 0 <= i < |s| ==> s[i].time != eventAt)
  {
    if FindTime(s, InvalidTime).Some? {
      var k := FindTime(s, InvalidTime).value;
      assert s[k].time == InvalidTime;
    }
  }

  /** A permutation of the slots schedules the same times. */
  lemma PermutationKeepsTimes<D>(s: seq<TimePoint<D>>, s': seq<TimePoint<D>>)
    requires multiset(s) == multiset(s')
    ensures ScheduledTimes(s) == ScheduledTimes(s')
  {
    forall p | p in s
      ensures p in s'
    {
      assert p in multiset(s);
    }
    forall p | p in s'
      ensures p in s
    {
      assert p in multiset(s');
    }
  }

  /** Storing a point in a free slot schedules exactly one more time. */
  lemma FillFreeSlotTimes<D>(s: seq<TimePoint<D>>, k: nat, x: TimePoint<D>)
    requires k < |s| && s[k].time == InvalidTime && x.time != InvalidTime
    ensures ScheduledTimes(s[k := x]) == ScheduledTimes(s) + {x.time}
  {
    var s' := s[k := x];
    forall t | t in ScheduledTimes(s)
      ensures t in ScheduledTimes(s')
    {
      var i :| 0 <= i < |s| && s[i].time == t && t != InvalidTime;
      assert i != k;
      assert s'[i] == s[i];
    }
    assert s'[k] == x;
    forall t | t in ScheduledTimes(s')
      ensures t in ScheduledTimes(s) + {x.time}
    {
      var i :| 0 <= i < |s'| && s'[i].time == t && t != InvalidTime;
      if i != k {
        assert s[i] == s'[i];
      }
    }
  }

  /** Positions `0..i` are in order, except that the slot at `j` may be too early. */
  ghost predicate SortedExcept<D>(s: seq<TimePoint<D>>, i: nat, j: nat)
    requires i < |s|
  {
    forall p, q :: 0 <= p < q <= i && q != j ==> s[p].time <= s[q].time
  }

  /** The slot at `j` is earlier than every slot after it up to `i`. */
  ghost predicate EarlierThanRest<D>(s: seq<TimePoint<D>>, i: nat, j: nat)
    requires j <= i < |s|
  {
    forall q :: j < q <= i ==> s[j].time < s[q].time
  }

  /** Swapping the out-of-order slot with its left neighbour moves the gap one place left. */
  lemma SwapStep<D>(s: seq<TimePoint<D>>, i: nat, j: nat)
    requires 0 < j <= i < |s|
    requires SortedExcept(s, i, j) && EarlierThanRest(s, i, j)
    requires s[j - 1].time > s[j].time
    ensures SortedExcept(s[j - 1 := s[j]][j := s[j - 1]], i, j - 1)
    ensures EarlierThanRest(s[j - 1 := s[j]][j := s[j - 1]], i, j - 1)
  {
  }

  /** Once the slot at `j` is no earlier than its left neighbour, `0..i` is sorted. */
  lemma SortedAtStop<D>(s: seq<TimePoint<D>>, i: nat, j: nat)
    requires j <= i < |s|
    requires SortedExcept(s, i, j) && EarlierThanRest(s, i, j)
    requires j == 0 || s[j - 1].time <= s[j].time
    ensures SortedByTime(s[..i + 1])
  {
    forall p, q | 0 <= p < q <= i
      ensures s[p].time <= s[q].time
    {
      if q == j && p < j - 1 {
        assert s[p].time <= s[j - 1].time;
      }
    }
  }

  /** `s` with the slots at `j - 1` and `j` exchanged. */
  ghost function Swapped<D>(s: seq<TimePoint<D>>, j: nat): seq<TimePoint<D>>
    requires 0 < j < |s|
  {
    s[j - 1 := s[j]][j := s[j - 1]]
  }

  /** Exchanging two neighbours keeps the slots. */
  lemma SwapKeepsSlots<D>(s: seq<TimePoint<D>>, j: nat)
    requires 0 < j < |s|
    ensures multiset(Swapped(s, j)) == multiset(s)
  {
    var t := s[j - 1 := s[j]];
    assert multiset(t) == multiset(s) - multiset{s[j - 1]} + multiset{s[j]};
  }

  /** A sorted prefix `0..i-1` is in order up to `i` except possibly at `i`. */
  lemma SortedPrefixStart<D>(s: seq<TimePoint<D>>, i: nat)
    requires i < |s| && SortedByTime(s[..i])
    ensures SortedExcept(s, i, i) && EarlierThanRest(s, i, i)
  {
    forall p, q | 0 <= p < q <= i && q != i
      ensures s[p].time <= s[q].time
    {
      assert s[..i][p] == s[p] && s[..i][q] == s[q];
    }
  }

  /** Insertion step of `reorderSchedule`: moves `a[i]` left into the sorted prefix. */
  method InsertIntoSorted<D>(a: array<TimePoint<D>>, i: nat)
    requires i < a.Length && SortedByTime(a[..i])
    modifies a
    ensures SortedByTime(a[..i + 1])
    ensures multiset(a[..]) == multiset(old(a[..]))
  {
    SortedPrefixStart(a[..], i);
    var j := i;
    while j > 0 && a[j - 1].time > a[j].time
      invariant 0 <= j <= i
      invariant SortedExcept(a[..], i, j) && EarlierThanRest(a[..], i, j)
      invariant multiset(a[..]) == multiset(old(a[..]))
    {
      ghost var b := a[..];
      SwapStep(b, i, j);
      SwapKeepsSlots(b, j);
      a[j - 1], a[j] := a[j], a[j - 1];
      assert a[..] == Swapped(b, j);
      j := j - 1;
    }
    SortedAtStop(a[..], i, j);
    assert a[..i + 1] == a[..][..i + 1];
  }

  /** `reorderSchedule`: sorts the slots by time. `std::ranges::sort` is not stable;
      any order of slots with equal times is a correct outcome, and this is one. */
  method SortByTime<D>(a: array<TimePoint<D>>)
    modifies a
    ensures SortedByTime(a[..])
    ensures multiset(a[..]) == multiset(old(a[..]))
  {
    var i := 0;
    while i < a.Length
      invariant 0 <= i <= a.Length
      invariant SortedByTime(a[..i])
      invariant multiset(a[..]) == multiset(old(a[..]))
    {
      InsertIntoSorted(a, i);
      i := i + 1;
    }
    assert a[..i] == a[..];
  }

  class DaySchedule<D> {
    const NumChannels: nat
    const datapoints: array<TimePoint<D>>

    ghost predicate Valid()
      reads this, datapoints
    {
      1 <= datapoints.Length &&
      SortedByTime(datapoints[..]) &&
      forall p :: p in datapoints[..] ==> |p.data| == NumChannels
    }

    /** Every slot starts unused, with every channel empty. */
    constructor (numChannels: nat, timePointsPerDay: nat)
      requires 1 <= timePointsPerDay
      ensures Valid() && fresh(datapoints)
      ensures NumChannels == numChannels && datapoints.Length == timePointsPerDay
      ensures forall i :: 0 <= i < datapoints.Length ==> datapoints[i] == TimePoint(InvalidTime, seq(numChannels, _ => None))
      ensures ScheduledTimes(datapoints[..]) == {}
    {
      NumChannels := numChannels;
      datapoints := new TimePoint<D>[timePointsPerDay](_ => TimePoint(InvalidTime, seq(numChannels, _ => None)));
    }

    method InsertTimePoint(eventAt: int, data: seq<Option<D>>) returns (ok: bool)
      requires Valid() && |data| == NumChannels
      modifies datapoints
      ensures Valid()
      ensures ok <==> InsertAccepted(old(datapoints[..]), eventAt)
      ensures !ok ==> datapoints[..] == old(datapoints[..])
      ensures ok ==> (multiset(datapoints[..]) ==
        multiset(old(datapoints[..])[FindTime(old(datapoints[..]), InvalidTime).value := TimePoint(eventAt, data)]))
      ensures ok ==> ScheduledTimes(datapoints[..]) == ScheduledTimes(old(datapoints[..])) + {eventAt}
    {
      var free := FindTime(datapoints[..], InvalidTime);
      if free.None? {
        return false;
      }
      if FindTime(datapoints[..], eventAt).Some? {
        return false;
      }
      ghost var before := datapoints[..];
      datapoints[free.value] := TimePoint(eventAt, data);
      ghost var filled := datapoints[..];
      assert filled == before[free.value := TimePoint(eventAt, data)];
      SortByTime(datapoints);
      FillFreeSlotTimes(before, free.value, TimePoint(eventAt, data));
      PermutationKeepsTimes(filled, datapoints[..]);
      forall p | p in datapoints[..]
        ensures |p.data| == NumChannels
      {
        assert p in multiset(filled);
      }
      return true;
    }

    /** `removeTimePoint` marks the first slot with the time unused; its channel data
        stay in the slot. */
    method RemoveTimePoint(eventAt: int) returns (ok: bool)
      requires Valid()
      modifies datapoints
      ensures Valid()
      ensures ok <==> FindTime(old(datapoints[..]), eventAt).Some?
      ensures !ok ==> datapoints[..] == old(datapoints[..])
      ensures ok ==>
        var k := FindTime(old(datapoints[..]), eventAt).value;
        multiset(datapoints[..]) == multiset(old(datapoints[..])[k := TimePoint(InvalidTime, old(datapoints[k]).data)])
    {
      var found := FindTime(datapoints[..], eventAt);
      if found.None? {
        return false;
      }
      var k := found.value;
      ghost var before := datapoints[..];
      datapoints[k] := TimePoint(InvalidTime, datapoints[k].data);
      ghost var cleared := datapoints[..];
      assert cleared == before[k := TimePoint(InvalidTime, before[k].data)];
      SortByTime(datapoints);
      forall p | p in datapoints[..]
        ensures |p.data| == NumChannels
      {
        assert p in multiset(cleared);
        if p != cleared[k] {
          assert p in before;
        }
      }
      return true;
    }

    /** `getFirstTimePointOfDay`: slot 0 if it is used. */
    function GetFirstTimePointOfDay(): (r: Option<nat>)
      reads this, datapoints
      requires Valid()
      ensures r.Some? ==> r.value == 0 && datapoints[0].time != InvalidTime
      ensures r.Some? ==> forall j :: 0 <= j < datapoints.Length ==> datapoints[0].time <= datapoints[j].time
      ensures r.None? ==> forall j :: 0 <= j < datapoints.Length ==> datapoints[j].time >= InvalidTime
    {
      if datapoints[0].time != InvalidTime then Some(0) else None
    }

    /** `getLastTimePointOfDay`: the slot just before the first unused one. */
    function GetLastTimePointOfDay(): (r: Option<nat>)
      reads this, datapoints
      requires Valid()
      ensures r.None? <==> datapoints[0].time == InvalidTime
      ensures r.Some? ==> r.value < datapoints.Length && datapoints[r.value].time != InvalidTime
      ensures r.Some? && r.value + 1 < datapoints.Length ==> datapoints[r.value + 1].time == InvalidTime
      ensures r.Some? ==> forall j :: 0 <= j < datapoints.Length && datapoints[j].time < InvalidTime ==>
                datapoints[j].time <= datapoints[r.value].time
    {
      var k := FindTime(datapoints[..], InvalidTime);
      if k == Some(0) then None
      else if k.None? then Some(datapoints.Length - 1)
      else Some(k.value - 1)
    }

    /** `getCurrentTimePointOfDay`: the last slot at or before `t`, unless it is unused. */
    function GetCurrentTimePointOfDay(t: int): (r: Option<nat>)
      reads this, datapoints
      requires Valid()
      ensures r.Some? ==> r.value < datapoints.Length
      ensures r.Some? ==> datapoints[r.value].time <= t && datapoints[r.value].time != InvalidTime
      ensures r.Some? ==> forall j :: 0 <= j < datapoints.Length && datapoints[j].time <= t ==>
                datapoints[j].time <= datapoints[r.value].time
      ensures t < InvalidTime ==>
                (r.None? <==> forall j :: 0 <= j < datapoints.Length ==> datapoints[j].time > t)
    {
      match LastWhere(datapoints[..], (x: TimePoint<D>) => x.time <= t)
      case None => None
      case Some(i) => if datapoints[i].time == InvalidTime then None else Some(i)
    }

    /** `getNextTimePointOfDay`: the first slot after `t`, unless it is unused. */
    function GetNextTimePointOfDay(t: int): (r: Option<nat>)
      reads this, datapoints
      requires Valid()
      ensures r.Some? ==> r.value < datapoints.Length
      ensures r.Some? ==> datapoints[r.value].time > t && datapoints[r.value].time != InvalidTime
      ensures r.Some? ==> forall j :: 0 <= j < datapoints.Length && datapoints[j].time > t ==>
                datapoints[r.value].time <= datapoints[j].time
      ensures r.None? ==> forall j :: 0 <= j < datapoints.Length && datapoints[j].time > t ==>
                datapoints[j].time >= InvalidTime
    {
      match FirstWhere(datapoints[..], (x: TimePoint<D>) => x.time > t)
      case None => None
      case Some(i) => if datapoints[i].time == InvalidTime then None else Some(i)
    }
  }

  /** A used slot that carries a value for channel `c`. */
  predicate HasChannel<D>(p: TimePoint<D>, c: nat) {
    p.time != InvalidTime && c < |p.data| && p.data[c].Some?
  }

  /** Channel form of the first lookup, as the week schedule calls it: the first used slot
      with a value for `c`. */
  function ChannelFirst<D>(s: seq<TimePoint<D>>, c: nat): (r: Option<nat>)
    ensures r.None? <==> forall j :: 0 <= j < |s| ==> !HasChannel(s[j], c)
    ensures r.Some? ==> r.value < |s| && HasChannel(s[r.value], c)
    ensures r.Some? && SortedByTime(s) ==>
              forall j :: 0 <= j < |s| && HasChannel(s[j], c) ==> s[r.value].time <= s[j].time
  {
    FirstWhere(s, (x: TimePoint<D>) => HasChannel(x, c))
  }

  /** Channel form of the last lookup: the last used slot with a value for `c`. */
  function ChannelLast<D>(s: seq<TimePoint<D>>, c: nat): (r: Option<nat>)
    ensures r.None? <==> forall j :: 0 <= j < |s| ==> !HasChannel(s[j], c)
    ensures r.Some? ==> r.value < |s| && HasChannel(s[r.value], c)
    ensures r.Some? && SortedByTime(s) ==>
              forall j :: 0 <= j < |s| && HasChannel(s[j], c) ==> s[j].time <= s[r.value].time
  {
    LastWhere(s, (x: TimePoint<D>) => HasChannel(x, c))
  }

  /** Channel form of the current lookup: the last slot at or before `t` with a value for `c`. */
  function ChannelCurrent<D>(s: seq<TimePoint<D>>, c: nat, t: int): (r: Option<nat>)
    ensures r.None? <==> forall j :: 0 <= j < |s| && HasChannel(s[j], c) ==> s[j].time > t
    ensures r.Some? ==> r.value < |s| && HasChannel(s[r.value], c) && s[r.value].time <= t
    ensures r.Some? && SortedByTime(s) ==>
              forall j :: 0 <= j < |s| && HasChannel(s[j], c) && s[j].time <= t ==> s[j].time <= s[r.value].time
  {
    LastWhere(s, (x: TimePoint<D>) => HasChannel(x, c) && x.time <= t)
  }

  /** Channel form of the next lookup: the first slot after `t` with a value for `c`. */
  function ChannelNext<D>(s: seq<TimePoint<D>>, c: nat, t: int): (r: Option<nat>)
    ensures r.None? <==> forall j :: 0 <= j < |s| && HasChannel(s[j], c) ==> s[j].time <= t
    ensures r.Some? ==> r.value < |s| && HasChannel(s[r.value], c) && s[r.value].time > t
    ensures r.Some? && SortedByTime(s) ==>
              forall j :: 0 <= j < |s| && HasChannel(s[j], c) && s[j].time > t ==> s[r.value].time <= s[j].time
  {
    FirstWhere(s, (x: TimePoint<D>) => HasChannel(x, c) && x.time > t)
  }
}
