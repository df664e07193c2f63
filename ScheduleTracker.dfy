/**
 * The schedule tracker: for each channel it remembers when the channel was last updated,
 * and asks the week schedule for the current and the next event to let the selected
 * tracker decide the channel's value.
 */
module ScheduleTrackers {
  import opened Wrappers
  import opened TimeUtils
  import opened DaySchedules
  import opened WeekSchedules
  import opened TrackerTypes

  /** What the tracker can see of its schedule: the seven days and the schedule's own
      channel count, which may differ from the tracker's. */
  datatype ScheduleView<D> = ScheduleView(days: seq<seq<TimePoint<D>>>, numChannels: nat)

  predicate ViewValid<D>(view: Option<ScheduleView<D>>) {
    view.Some? ==> |view.value.days| == 7
  }

  /** The entry of one channel in a multi-channel status; a channel beyond the status has
      no event. */
  function ChannelEntry<D>(status: seq<Option<SingleChannelStatus<D>>>, c: nat): (r: Option<SingleChannelStatus<D>>)
    ensures r.Some? <==> c < |status| && status[c].Some?
    ensures r.Some? ==> r == status[c]
  {
    if |status| <= c then None else status[c]
  }

  /** `getEvent`: no schedule gives no event; otherwise the channel's entry in the current
      or next status of `currentEventStatus` with `AllDays`. */
  function GetEvent<D>(view: Option<ScheduleView<D>>, sel: EventSelection, c: nat, day: nat, t: int)
    : (r: Option<SingleChannelStatus<D>>)
    requires ViewValid(view)
    ensures view.None? ==> r.None?
    ensures view.Some? && c >= view.value.numChannels ==> r.None?
  {
    if view.None? then None
    else ChannelEntry(EventStatus(view.value.days, sel, t, day, AllDays, view.value.numChannels, IntendedIterations), c)
  }

  /** The tracker's decision once the current and the next event of the channel are known;
      without a current event there is no value. */
  function ValueFromEvents<D>(mode: TransitionMode, current: Option<SingleChannelStatus<D>>,
                              next: Option<SingleChannelStatus<D>>, channelTime: int, tm: Tm,
                              interpolate: (SingleChannelStatus<D>, SingleChannelStatus<D>, int) -> D)
    : (r: Option<D>)
    ensures current.None? ==> r.None?
    ensures mode == Hold ==> (r.Some? <==> current.Some?)
    ensures r.Some? && mode != Interpolation ==> r.value == current.value.eventData
  {
    if current.None? then None
    else
      var now := SinceWeekBeginning(tm);
      TrackerValue(mode, TrackingData(current.value, next, channelTime, now - current.value.eventTime, now),
                   interpolate)
  }

  /** `getCurrentChannelValue` on the tracker's state given as values. */
  function ChannelValue<D>(view: Option<ScheduleView<D>>, mode: TransitionMode, channelTimes: seq<int>,
                           interpolate: (SingleChannelStatus<D>, SingleChannelStatus<D>, int) -> D,
                           c: nat, tm: Tm): (r: Option<D>)
    requires ViewValid(view)
    ensures c >= |channelTimes| ==> r.None?
    ensures view.None? ==> r.None?
    ensures GetEvent(view, Current, c, GetDayOfWeek(tm), TimeOfDay(tm)).None? ==> r.None?
    ensures mode == Hold ==>
              (r.Some? <==> c < |channelTimes| && GetEvent(view, Current, c, GetDayOfWeek(tm), TimeOfDay(tm)).Some?)
    ensures r.Some? && mode != Interpolation ==>
              r.value == GetEvent(view, Current, c, GetDayOfWeek(tm), TimeOfDay(tm)).value.eventData
  {
    if c >= |channelTimes| then None
    else
      var day := GetDayOfWeek(tm);
      var t := TimeOfDay(tm);
      ValueFromEvents(mode, GetEvent(view, Current, c, day, t), GetEvent(view, Next, c, day, t), channelTimes[c], tm,
                      interpolate)
  }

  /** `f` of each of the first `n` channels, in channel order. */
  function Tabulate<T>(f: nat -> T, n: nat): (r: seq<T>)
    ensures |r| == n
    ensures forall c :: 0 <= c < n ==> r[c] == f(c)
  {
    if n == 0 then [] else Tabulate(f, n - 1) + [f(n - 1)]
  }

  /** The values of the first `n` channels, in channel order. */
  function ChannelValues<D>(view: Option<ScheduleView<D>>, mode: TransitionMode, channelTimes: seq<int>,
                            interpolate: (SingleChannelStatus<D>, SingleChannelStatus<D>, int) -> D,
                            tm: Tm, n: nat): (r: seq<Option<D>>)
    requires ViewValid(view)
    ensures |r| == n
  {
    Tabulate(c => ChannelValue(view, mode, channelTimes, interpolate, c, tm), n)
  }

  /** Under single-shot tracking, a channel whose time was just set to now yields nothing. */
  lemma SingleShotReadAfterUpdate<D>(view: Option<ScheduleView<D>>, channelTimes: seq<int>,
                                     interpolate: (SingleChannelStatus<D>, SingleChannelStatus<D>, int) -> D,
                                     c: nat, tm: Tm)
    requires ViewValid(view)
    requires c < |channelTimes| && channelTimes[c] == SinceWeekBeginning(tm)
    ensures ChannelValue(view, SingleShot, channelTimes, interpolate, c, tm).None?
  {
    var current := GetEvent(view, Current, c, GetDayOfWeek(tm), TimeOfDay(tm));
    if current.Some? {
      var now := SinceWeekBeginning(tm);
      var next := GetEvent(view, Next, c, GetDayOfWeek(tm), TimeOfDay(tm));
      SingleShotSilentAfterUpdate(TrackingData(current.value, next, channelTimes[c], now - current.value.eventTime, now));
    }
  }

  /** Holding, a channel of both the tracker and the schedule has a value at every valid date
      exactly when some day of the week schedules an event for it. */
  lemma HoldFindsAnyScheduledEvent<D>(view: Option<ScheduleView<D>>, channelTimes: seq<int>,
                                      interpolate: (SingleChannelStatus<D>, SingleChannelStatus<D>, int) -> D,
                                      c: nat, tm: Tm)
    requires ViewValid(view) && view.Some? && ValidTm(tm)
    requires c < |channelTimes| && c < view.value.numChannels
    ensures ChannelValue(view, Hold, channelTimes, interpolate, c, tm).Some? <==>
              exists x :: 0 <= x < 7 && DayHasChannel(view.value.days[x], c)
  {
    var days := view.value.days;
    var day := GetDayOfWeek(tm);
    var status := EventStatus(days, Current, TimeOfDay(tm), day, AllDays, view.value.numChannels, IntendedIterations);
    assert status[c] == ChannelStatus(days, Current, TimeOfDay(tm), day, AllDays, c, IntendedIterations);
    IntendedSearchFindsAnyEvent(days, Current, TimeOfDay(tm), day, c);
  }

  class ScheduleTracker<D> {
    /** The tracker's channel count (a template parameter in the firmware). */
    const NumChannels: nat
    /** Seconds since the week began at each channel's last update. */
    const channelTimes: array<int>
    var mode: TransitionMode
    var schedule: WeekSchedule?<D>
    /** The interpolation arithmetic, which is floating point in the firmware. */
    const interpolate: (SingleChannelStatus<D>, SingleChannelStatus<D>, int) -> D

    ghost predicate Valid()
      reads this, channelTimes, schedule, if schedule != null then {schedule.daySchedules} else {}
    {
      channelTimes.Length == NumChannels && (schedule != null ==> schedule.Valid())
    }

    ghost function View(): (r: Option<ScheduleView<D>>)
      reads this, channelTimes, schedule, if schedule != null then {schedule.daySchedules} else {}
      requires Valid()
      ensures ViewValid(r)
    {
      if schedule == null then None else Some(ScheduleView(schedule.daySchedules[..], schedule.NumChannels))
    }

    /** The channel times are left indeterminate by the firmware; `initialTimes` stands for
        whatever they hold. */
    constructor (numChannels: nat, s: WeekSchedule?<D>, m: TransitionMode,
                 f: (SingleChannelStatus<D>, SingleChannelStatus<D>, int) -> D, initialTimes: seq<int>)
      requires s != null ==> s.Valid()
      requires |initialTimes| == numChannels
      ensures Valid() && fresh(channelTimes)
      ensures NumChannels == numChannels && schedule == s && mode == m && interpolate == f
      ensures channelTimes[..] == initialTimes
    {
      NumChannels := numChannels;
      channelTimes := new int[numChannels](i requires 0 <= i < numChannels => initialTimes[i]);
      mode := m;
      schedule := s;
      interpolate := f;
    }

    /** The constructor without a transition mode holds events. */
    constructor WithHold(numChannels: nat, s: WeekSchedule?<D>,
                         f: (SingleChannelStatus<D>, SingleChannelStatus<D>, int) -> D, initialTimes: seq<int>)
      requires s != null ==> s.Valid()
      requires |initialTimes| == numChannels
      ensures Valid() && fresh(channelTimes)
      ensures NumChannels == numChannels && schedule == s && mode == Hold && interpolate == f
      ensures channelTimes[..] == initialTimes
    {
      NumChannels := numChannels;
      channelTimes := new int[numChannels](i requires 0 <= i < numChannels => initialTimes[i]);
      mode := Hold;
      schedule := s;
      interpolate := f;
    }

    /** `getEvent`. */
    method GetEventOf(sel: EventSelection, c: nat, day: nat, t: int) returns (r: Option<SingleChannelStatus<D>>)
      requires Valid()
      ensures r == GetEvent(View(), sel, c, day, t)
    {
      if schedule == null {
        return None;
      }
      var current, next := schedule.CurrentEventStatus(t, day, AllDays);
      var event := if sel == Next then next else current;
      if |event| <= c {
        return None;
      }
      r := event[c];
    }

    /** `getCurrentChannelValue`. */
    method GetCurrentChannelValue(c: nat, tm: Tm) returns (r: Option<D>)
      requires Valid()
      ensures r == ChannelValue(View(), mode, channelTimes[..], interpolate, c, tm)
    {
      if c >= NumChannels {
        return None;
      }
      var t := TimeOfDay(tm);
      var day := GetDayOfWeek(tm);
      var current := GetEventOf(Current, c, day, t);
      var next := GetEventOf(Next, c, day, t);
      if current.None? {
        return None;
      }
      r := ValueFromEvents(mode, current, next, channelTimes[c], tm, interpolate);
    }

    /** `getCurrentChannelValues`: the value of every channel of the tracker. */
    method GetCurrentChannelValues(tm: Tm) returns (values: seq<Option<D>>)
      requires Valid()
      ensures |values| == NumChannels
      ensures forall c :: 0 <= c < NumChannels ==>
                values[c] == ChannelValue(View(), mode, channelTimes[..], interpolate, c, tm)
    {
      ghost var view, times := View(), channelTimes[..];
      values := [];
      var i := 0;
      while i < NumChannels
        invariant i <= NumChannels
        invariant values == ChannelValues(view, mode, times, interpolate, tm, i)
      {
        var v := GetCurrentChannelValue(i, tm);
        values := values + [v];
        i := i + 1;
      }
    }

    /** `setTrackingType`. */
    method SetTrackingType(m: TransitionMode)
      requires Valid()
      modifies this
      ensures Valid() && mode == m && schedule == old(schedule)
    {
      mode := m;
    }

    /** `setSchedule`. */
    method SetSchedule(s: WeekSchedule?<D>)
      requires Valid() && (s != null ==> s.Valid())
      modifies this
      ensures Valid() && schedule == s && mode == old(mode)
    {
      schedule := s;
    }

    /** `updateChannelTime`: records now for one channel; an index beyond the tracker's
        channels is refused. */
    method UpdateChannelTime(c: nat, tm: Tm) returns (ok: bool)
      requires Valid()
      modifies channelTimes
      ensures Valid()
      ensures ok <==> c < NumChannels
      ensures ok ==> channelTimes[..] == old(channelTimes[..])[c := SinceWeekBeginning(tm)]
      ensures !ok ==> channelTimes[..] == old(channelTimes[..])
    {
      if NumChannels <= c {
        return false;
      }
      channelTimes[c] := SinceWeekBeginning(tm);
      ok := true;
    }

    /** `updateAllChannelTimes`: every channel's time becomes now, so a single-shot tracker
        then yields nothing for any channel at the same date. */
    method UpdateAllChannelTimes(tm: Tm)
      requires Valid()
      modifies channelTimes
      ensures Valid()
      ensures forall c :: 0 <= c < NumChannels ==> channelTimes[c] == SinceWeekBeginning(tm)
      ensures mode == SingleShot ==>
                forall c :: 0 <= c < NumChannels ==> ChannelValue(View(), mode, channelTimes[..], interpolate, c, tm).None?
    {
      var i := 0;
      while i < NumChannels
        invariant i <= NumChannels && Valid()
        invariant forall c :: 0 <= c < i ==> channelTimes[c] == SinceWeekBeginning(tm)
      {
        var _ := UpdateChannelTime(i, tm);
        i := i + 1;
      }
      if mode == SingleShot {
        forall c | 0 <= c < NumChannels
          ensures ChannelValue(View(), mode, channelTimes[..], interpolate, c, tm).None?
        {
          SingleShotReadAfterUpdate(View(), channelTimes[..], interpolate, c, tm);
        }
      }
    }

    /** `getChannelTimes`. */
    function ChannelTimes(): (r: seq<int>)
      reads this, channelTimes
      ensures |r| == channelTimes.Length
    {
      channelTimes[..]
    }

    /** `setChannelTimes`: copies the given times; reading them back gives the same times. */
    method SetChannelTimes(times: seq<int>)
      requires Valid() && |times| == NumChannels
      modifies channelTimes
      ensures Valid() && ChannelTimes() == times
    {
      var i := 0;
      while i < NumChannels
        invariant i <= NumChannels
        invariant forall c :: 0 <= c < i ==> channelTimes[c] == times[c]
      {
        channelTimes[i] := times[i];
        i := i + 1;
      }
    }
  }
}
