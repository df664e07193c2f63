/**
 * `WeekSchedule<NumChannels, TimePointData, TimePointsPerDay>`: seven day schedules, held
 * by value, and the per-channel search for the event in effect (current) or the one that
 * follows (next). When the start day has no matching event the search continues on the
 * previous days (current) or the following days (next).
 */
module WeekSchedules {
  import opened Wrappers
  import opened TimeUtils
  import opened DaySchedules

  datatype DaySearchSettings = OnlyThisDay | AllDays
  datatype EventSelection = Next | Current

  /** `Detail::SingleChannelStatus`: the event time in seconds since the start of the week
      and the channel's value. */
  datatype SingleChannelStatus<D> = SingleChannelStatus(eventTime: int, eventData: D)

  /** Loop iterations of the day search in `findEventStatus` as written: `daysSearched` is
      incremented twice per pass, so the bound of 8 allows 4 passes. */
  const AsWrittenIterations: nat := 4
  /** Loop iterations the bound of 8 evidently intends. */
  const IntendedIterations: nat := 8

  /** `createSingleChannelStatus`: day offset plus time of day, and the channel's value. */
  function CreateSingleChannelStatus<D>(dayIndex: nat, p: TimePoint<D>, c: nat): (r: SingleChannelStatus<D>)
    requires HasChannel(p, c)
    ensures r.eventData == p.data[c].value
    ensures 0 <= p.time < SecondsPerDay ==> r.eventTime / SecondsPerDay == dayIndex
    ensures 0 <= p.time < SecondsPerDay ==> r.eventTime % SecondsPerDay == p.time
  {
    SingleChannelStatus(dayIndex * 24 * 3600 + p.time, p.data[c].value)
  }

  /** The lookup on the start day: the next event after `t`, or the current one. */
  function InDayLookup<D>(day: seq<TimePoint<D>>, sel: EventSelection, c: nat, t: int): (r: Option<nat>)
    ensures r.Some? ==> r.value < |day| && HasChannel(day[r.value], c)
  {
    if sel == Next then ChannelNext(day, c, t) else ChannelCurrent(day, c, t)
  }

  /** The lookup on a further day: its first event (next) or its last one (current). */
  function AdjacentLookup<D>(day: seq<TimePoint<D>>, sel: EventSelection, c: nat): (r: Option<nat>)
    ensures r.Some? ==> r.value < |day| && HasChannel(day[r.value], c)
    ensures r.None? <==> !DayHasChannel(day, c)
  {
    if sel == Next then ChannelFirst(day, c) else ChannelLast(day, c)
  }

  /** Some used slot of the day carries a value for channel `c`. */
  predicate DayHasChannel<D>(day: seq<TimePoint<D>>, c: nat) {
    exists j :: 0 <= j < |day| && HasChannel(day[j], c)
  }

  /** The day the search moves to in one pass. */
  function StepDay(d: nat, sel: EventSelection): (r: nat)
    requires IsWeekday(d)
    ensures IsWeekday(r)
    ensures r == if sel == Next then (d + 1) % 7 else (d + 6) % 7
  {
    if sel == Next then GetNextDay(d) else GetPreviousDay(d)
  }

  /** The day reached after `k` passes from `d`. */
  function VisitedDay(d: nat, sel: EventSelection, k: nat): (r: nat)
    requires IsWeekday(d)
    ensures IsWeekday(r)
  {
    if sel == Next then NextDayIterated(d, k) else PreviousDayIterated(d, k)
  }

  /** The day loop of `findEventStatus`: at most `iterations` passes, each stepping one day
      and looking up that day's first or last event for `c`. The result is the day index
      and the slot found there. */
  function SearchDays<D>(days: seq<seq<TimePoint<D>>>, sel: EventSelection, c: nat, d: nat, iterations: nat)
    : (r: Option<(nat, nat)>)
    requires |days| == 7 && IsWeekday(d)
    ensures r.Some? ==> IsWeekday(r.value.0) && r.value.1 < |days[r.value.0]|
    ensures r.Some? ==> HasChannel(days[r.value.0][r.value.1], c)
    decreases iterations
  {
    if iterations == 0 then None
    else
      var d' := StepDay(d, sel);
      match AdjacentLookup(days[d'], sel, c)
      case Some(k) => Some((d', k))
      case None => SearchDays(days, sel, c, d', iterations - 1)
  }

  /** What remains of the search when the pass that reached day `d` produced `result`. */
  function SearchFrom<D>(days: seq<seq<TimePoint<D>>>, sel: EventSelection, c: nat, d: nat,
                         result: Option<nat>, iterations: nat): Option<(nat, nat)>
    requires |days| == 7 && IsWeekday(d)
  {
    if result.Some? then Some((d, result.value)) else SearchDays(days, sel, c, d, iterations)
  }

  /** One pass of the day loop. */
  lemma SearchPass<D>(days: seq<seq<TimePoint<D>>>, sel: EventSelection, c: nat, d: nat, iterations: nat)
    requires |days| == 7 && IsWeekday(d) && 0 < iterations
    ensures SearchFrom(days, sel, c, d, None, iterations) ==
            SearchFrom(days, sel, c, StepDay(d, sel), AdjacentLookup(days[StepDay(d, sel)], sel, c), iterations - 1)
  {
  }

  lemma {:induction false} StepThenVisit(d: nat, sel: EventSelection, k: nat)
    requires IsWeekday(d)
    ensures VisitedDay(StepDay(d, sel), sel, k) == VisitedDay(d, sel, k + 1)
  {
    var d' := StepDay(d, sel);
    if k == 0 {
      if sel == Next {
        assert NextDayIterated(d, 1) == GetNextDay(NextDayIterated(d, 0));
      } else {
        assert PreviousDayIterated(d, 1) == GetPreviousDay(PreviousDayIterated(d, 0));
      }
    } else {
      StepThenVisit(d, sel, k - 1);
      if sel == Next {
        assert NextDayIterated(d', k) == GetNextDay(NextDayIterated(d', k - 1));
      } else {
        assert PreviousDayIterated(d', k) == GetPreviousDay(PreviousDayIterated(d', k - 1));
      }
    }
  }

  /** The search finds nothing exactly when none of the `iterations` days it visits has an
      event for the channel. */
  lemma {:induction false} SearchDaysCharacterized<D>(days: seq<seq<TimePoint<D>>>, sel: EventSelection, c: nat,
                                                        d: nat, iterations: nat)
    requires |days| == 7 && IsWeekday(d)
    ensures SearchDays(days, sel, c, d, iterations).None? <==>
              forall k :: 1 <= k <= iterations ==> !DayHasChannel(days[VisitedDay(d, sel, k)], c)
    decreases iterations
  {
    if iterations > 0 {
      var d' := StepDay(d, sel);
      StepThenVisit(d, sel, 0);
      SearchDaysCharacterized(days, sel, c, d', iterations - 1);
      forall k | 1 <= k <= iterations - 1
        ensures VisitedDay(d', sel, k) == VisitedDay(d, sel, k + 1)
      {
        StepThenVisit(d, sel, k);
      }
      if SearchDays(days, sel, c, d, iterations).None? {
        forall k | 1 <= k <= iterations
          ensures !DayHasChannel(days[VisitedDay(d, sel, k)], c)
        {
          if k > 1 {
            assert VisitedDay(d', sel, k - 1) == VisitedDay(d, sel, k);
          }
        }
      } else {
        if AdjacentLookup(days[d'], sel, c).None? {
          var k' :| 1 <= k' <= iterations - 1 && DayHasChannel(days[VisitedDay(d', sel, k')], c);
          assert VisitedDay(d', sel, k') == VisitedDay(d, sel, k' + 1);
        }
      }
    }
  }

  /** `v % 7` for `0 <= v < 14`, without the modulus. */
  lemma ModSevenBelowFourteen(v: int)
    requires 0 <= v < 14
    ensures v % 7 == if v < 7 then v else v - 7
  {
    if v >= 7 {
      assert v == 1 * 7 + (v - 7);
    }
  }

  /** Seven passes, in either direction, visit every day of the week. */
  lemma SevenPassesVisitEveryDay(d: nat, sel: EventSelection, x: nat)
    requires IsWeekday(d) && IsWeekday(x)
    ensures exists k :: 1 <= k <= 7 && VisitedDay(d, sel, k) == x
  {
    if sel == Next {
      var k := if x > d then x - d else x + 7 - d;
      NextDayIteratedIsModular(d, k);
      ModSevenBelowFourteen(d + k);
      assert VisitedDay(d, sel, k) == x;
    } else {
      var k := if d > x then d - x else d + 7 - x;
      var p := PreviousDayIterated(d, k);
      PreviousDayIteratedIsModular(d, k);
      ModSevenBelowFourteen(p + k);
      assert VisitedDay(d, sel, k) == x;
    }
  }

  /** The status of one channel as `findEventStatus` computes it, with the day loop
      allowed `iterations` passes. */
  function ChannelStatus<D>(days: seq<seq<TimePoint<D>>>, sel: EventSelection, t: int, start: nat,
                            settings: DaySearchSettings, c: nat, iterations: nat)
    : (r: Option<SingleChannelStatus<D>>)
    requires |days| == 7 && IsWeekday(start)
    ensures settings == OnlyThisDay ==> (r.None? <==> InDayLookup(days[start], sel, c, t).None?)
    ensures r.None? ==> InDayLookup(days[start], sel, c, t).None?
  {
    match InDayLookup(days[start], sel, c, t)
    case Some(k) => Some(CreateSingleChannelStatus(start, days[start][k], c))
    case None =>
      if settings == OnlyThisDay then None
      else match SearchDays(days, sel, c, start, iterations)
        case None => None
        case Some(found) => Some(CreateSingleChannelStatus(found.0, days[found.0][found.1], c))
  }

  /** The whole status array; an invalid start day gives no event for any channel. */
  function EventStatus<D>(days: seq<seq<TimePoint<D>>>, sel: EventSelection, t: int, day: nat,
                          settings: DaySearchSettings, numChannels: nat, iterations: nat)
    : (r: seq<Option<SingleChannelStatus<D>>>)
    requires |days| == 7
    ensures |r| == numChannels
    ensures !IsWeekday(day) ==> forall c :: 0 <= c < numChannels ==> r[c].None?
    ensures IsWeekday(day) ==>
              forall c :: 0 <= c < numChannels ==> r[c] == ChannelStatus(days, sel, t, day, settings, c, iterations)
  {
    if !IsWeekday(day) then seq(numChannels, _ => None)
    else seq(numChannels, c requires 0 <= c => ChannelStatus(days, sel, t, day, settings, c, iterations))
  }

  /** With the intended eight passes and `AllDays`, a channel has no event exactly when no
      day of the week schedules a value for it. */
  lemma IntendedSearchFindsAnyEvent<D>(days: seq<seq<TimePoint<D>>>, sel: EventSelection, t: int, start: nat, c: nat)
    requires |days| == 7 && IsWeekday(start)
    ensures ChannelStatus(days, sel, t, start, AllDays, c, IntendedIterations).None? <==>
              forall x :: 0 <= x < 7 ==> !DayHasChannel(days[x], c)
  {
    SearchDaysCharacterized(days, sel, c, start, IntendedIterations);
    if ChannelStatus(days, sel, t, start, AllDays, c, IntendedIterations).None? {
      forall x | 0 <= x < 7
        ensures !DayHasChannel(days[x], c)
      {
        SevenPassesVisitEveryDay(start, sel, x);
      }
    } else {
      var l := InDayLookup(days[start], sel, c, t);
      if l.Some? {
        assert HasChannel(days[start][l.value], c);
      } else {
        var found := SearchDays(days, sel, c, start, IntendedIterations).value;
        assert HasChannel(days[found.0][found.1], c);
      }
    }
  }

  /** The search as written stops after four passes: an event five days ahead is missed. */
  lemma AsWrittenMissesFifthDay()
    ensures var empty := [TimePoint(InvalidTime, [None])];
            var days := [empty, empty, empty, empty, empty, empty, [TimePoint(3600, [Some(1)])]];
            ChannelStatus(days, Next, 0, Monday, AllDays, 0, AsWrittenIterations) == None &&
            ChannelStatus(days, Next, 0, Monday, AllDays, 0, IntendedIterations) ==
              Some(SingleChannelStatus(6 * SecondsPerDay + 3600, 1))
  {
    var empty := [TimePoint(InvalidTime, [None])];
    var saturday := [TimePoint(3600, [Some(1)])];
    var days := [empty, empty, empty, empty, empty, empty, saturday];
    assert !HasChannel(empty[0], 0);
    assert AdjacentLookup(empty, Next, 0) == None;
    assert HasChannel(saturday[0], 0);
    assert AdjacentLookup(saturday, Next, 0) == Some(0);
    assert InDayLookup(empty, Next, 0, 0) == None;
    assert SearchDays(days, Next, 0, 5, 0) == None;
    assert SearchDays(days, Next, 0, 4, 1) == None;
    assert SearchDays(days, Next, 0, 3, 2) == None;
    assert SearchDays(days, Next, 0, 2, 3) == None;
    assert SearchDays(days, Next, 0, 1, 4) == None;
    assert SearchDays(days, Next, 0, 5, 4) == Some((6, 0));
    assert SearchDays(days, Next, 0, 4, 5) == Some((6, 0));
    assert SearchDays(days, Next, 0, 3, 6) == Some((6, 0));
    assert SearchDays(days, Next, 0, 2, 7) == Some((6, 0));
    assert SearchDays(days, Next, 0, 1, 8) == Some((6, 0));
  }

  class WeekSchedule<D> {
    const NumChannels: nat
    /** The seven day schedules by value, sunday first. */
    const daySchedules: array<seq<TimePoint<D>>>

    ghost predicate Valid()
      reads this, daySchedules
    {
      daySchedules.Length == 7
    }

    /** Every day starts as a default-constructed day schedule. */
    constructor (numChannels: nat, timePointsPerDay: nat)
      ensures Valid() && fresh(daySchedules) && NumChannels == numChannels
      ensures forall d :: 0 <= d < 7 ==> |daySchedules[d]| == timePointsPerDay
      ensures forall d :: 0 <= d < 7 ==> ScheduledTimes(daySchedules[d]) == {}
    {
      NumChannels := numChannels;
      daySchedules := new seq<TimePoint<D>>[7](
        _ => seq(timePointsPerDay, _ => TimePoint(InvalidTime, seq(numChannels, _ => None))));
    }

    /** `setDaySchedule`: copies the day schedule into slot `day`; a day index of 7 or more
        is ignored. */
    method SetDaySchedule(day: nat, schedule: DaySchedule<D>)
      requires Valid() && day < WeekdayModulus
      modifies daySchedules
      ensures Valid()
      ensures day >= 7 ==> daySchedules[..] == old(daySchedules[..])
      ensures day < 7 ==> daySchedules[..] == old(daySchedules[..])[day := schedule.datapoints[..]]
    {
      if day >= daySchedules.Length {
        return;
      }
      daySchedules[day] := schedule.datapoints[..];
    }

    /** The body of one pass of the day loop: step to the previous or next day and look up
        its last or first event for channel `c`. */
    method SearchPassStep(sel: EventSelection, c: nat, dayIndex: nat) returns (nextDay: nat, result: Option<nat>)
      requires Valid() && IsWeekday(dayIndex)
      ensures nextDay == StepDay(dayIndex, sel)
      ensures result == AdjacentLookup(daySchedules[nextDay], sel, c)
    {
      if sel == Next {
        nextDay := GetNextDay(dayIndex);
        result := ChannelFirst(daySchedules[nextDay], c);
      } else {
        nextDay := GetPreviousDay(dayIndex);
        result := ChannelLast(daySchedules[nextDay], c);
      }
    }

    /** The day loop of `findEventStatus` as written: `daysSearched` is incremented both
        in the loop header and in the loop body, so the bound of 8 allows only 4 passes. */
    method DaySearchLoopAsWritten(sel: EventSelection, c: nat, startDay: nat, startResult: Option<nat>)
      returns (dayIndex: nat, result: Option<nat>)
      requires Valid() && IsWeekday(startDay)
      requires startResult.Some? ==> startResult.value < |daySchedules[startDay]| &&
                                     HasChannel(daySchedules[startDay][startResult.value], c)
      ensures IsWeekday(dayIndex)
      ensures result.Some? ==> result.value < |daySchedules[dayIndex]| && HasChannel(daySchedules[dayIndex][result.value], c)
      ensures SearchFrom(daySchedules[..], sel, c, dayIndex, result, 0) ==
              SearchFrom(daySchedules[..], sel, c, startDay, startResult, AsWrittenIterations)
    {
      ghost var days := daySchedules[..];
      dayIndex, result := startDay, startResult;
      var daysSearched := 0;
      ghost var passes: nat := 0;
      ghost var total: nat := AsWrittenIterations;
      ghost var goal := SearchFrom(days, sel, c, startDay, startResult, total);
      while result.None? && daysSearched < 8
        invariant daysSearched == 2 * passes && passes <= total
        decreases total - passes
        invariant IsWeekday(dayIndex)
        invariant result.Some? ==> result.value < |days[dayIndex]| && HasChannel(days[dayIndex][result.value], c)
        invariant goal == SearchFrom(days, sel, c, dayIndex, result, total - passes)
      {
        ghost var previous := dayIndex;
        dayIndex, result := SearchPassStep(sel, c, dayIndex);
        assert SearchFrom(days, sel, c, previous, None, total - passes) ==
               SearchFrom(days, sel, c, dayIndex, result, total - passes - 1) by {
          SearchPass(days, sel, c, previous, total - passes);
        }
        daysSearched := daysSearched + 1;
        daysSearched := daysSearched + 1;
        passes := passes + 1;
      }
    }

    /** The day loop of `findEventStatus` with one increment per pass: up to eight passes,
        which is every other day and the start day once more. */
    method DaySearchLoop(sel: EventSelection, c: nat, startDay: nat, startResult: Option<nat>)
      returns (dayIndex: nat, result: Option<nat>)
      requires Valid() && IsWeekday(startDay)
      requires startResult.Some? ==> startResult.value < |daySchedules[startDay]| &&
                                     HasChannel(daySchedules[startDay][startResult.value], c)
      ensures IsWeekday(dayIndex)
      ensures result.Some? ==> result.value < |daySchedules[dayIndex]| && HasChannel(daySchedules[dayIndex][result.value], c)
      ensures SearchFrom(daySchedules[..], sel, c, dayIndex, result, 0) ==
              SearchFrom(daySchedules[..], sel, c, startDay, startResult, IntendedIterations)
    {
      ghost var days := daySchedules[..];
      dayIndex, result := startDay, startResult;
      var daysSearched := 0;
      ghost var passes: nat := 0;
      ghost var total: nat := IntendedIterations;
      ghost var goal := SearchFrom(days, sel, c, startDay, startResult, total);
      while result.None? && daysSearched < 8
        invariant daysSearched == passes && passes <= total
        decreases total - passes
        invariant IsWeekday(dayIndex)
        invariant result.Some? ==> result.value < |days[dayIndex]| && HasChannel(days[dayIndex][result.value], c)
        invariant goal == SearchFrom(days, sel, c, dayIndex, result, total - passes)
      {
        ghost var previous := dayIndex;
        dayIndex, result := SearchPassStep(sel, c, dayIndex);
        assert SearchFrom(days, sel, c, previous, None, total - passes) ==
               SearchFrom(days, sel, c, dayIndex, result, total - passes - 1) by {
          SearchPass(days, sel, c, previous, total - passes);
        }
        daysSearched := daysSearched + 1;
        passes := passes + 1;
      }
    }

    /** The per-channel body of `findEventStatus`: the lookup on the start day, the early
        exit with `OnlyThisDay`, and the day loop when nothing was found. */
    method ChannelEventStatus(sel: EventSelection, t: int, startDay: nat, settings: DaySearchSettings, c: nat)
      returns (status: Option<SingleChannelStatus<D>>)
      requires Valid() && IsWeekday(startDay)
      ensures status == ChannelStatus(daySchedules[..], sel, t, startDay, settings, c, IntendedIterations)
    {
      status := None;
      var dayIndex := startDay;
      var result: Option<nat>;
      if sel == Next {
        result := ChannelNext(daySchedules[dayIndex], c, t);
      } else {
        result := ChannelCurrent(daySchedules[dayIndex], c, t);
      }
      if settings != AllDays {
        if result.None? {
          return;
        }
        status := Some(CreateSingleChannelStatus(dayIndex, daySchedules[dayIndex][result.value], c));
      }
      dayIndex, result := DaySearchLoop(sel, c, dayIndex, result);
      if result.Some? {
        status := Some(CreateSingleChannelStatus(dayIndex, daySchedules[dayIndex][result.value], c));
      }
    }

    /** `findEventStatus`, with the day search as intended. */
    method FindEventStatus(sel: EventSelection, t: int, day: nat, settings: DaySearchSettings)
      returns (status: seq<Option<SingleChannelStatus<D>>>)
      requires Valid()
      ensures status == EventStatus(daySchedules[..], sel, t, day, settings, NumChannels, IntendedIterations)
    {
      status := seq(NumChannels, _ => None);
      if day >= daySchedules.Length {
        return;
      }
      var c := 0;
      while c < NumChannels
        invariant c <= NumChannels && |status| == NumChannels
        invariant forall k :: 0 <= k < c ==>
                    status[k] == ChannelStatus(daySchedules[..], sel, t, day, settings, k, IntendedIterations)
        invariant forall k :: c <= k < NumChannels ==> status[k].None?
      {
        var r := ChannelEventStatus(sel, t, day, settings, c);
        status := status[c := r];
        c := c + 1;
      }
    }

    /** `currentEventStatus`: the current and the next event of every channel for the same
        time and day. */
    method CurrentEventStatus(t: int, day: nat, settings: DaySearchSettings)
      returns (current: seq<Option<SingleChannelStatus<D>>>, next: seq<Option<SingleChannelStatus<D>>>)
      requires Valid()
      ensures current == EventStatus(daySchedules[..], Current, t, day, settings, NumChannels, IntendedIterations)
      ensures next == EventStatus(daySchedules[..], Next, t, day, settings, NumChannels, IntendedIterations)
    {
      current := FindEventStatus(Current, t, day, settings);
      next := FindEventStatus(Next, t, day, settings);
    }
  }
}
