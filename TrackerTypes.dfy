/**
 * The stateless schedule trackers: from the current event, the next one and three times
 * (when the channel was last updated, how long the current event has been in effect, and
 * now, all in seconds since the start of the week) each decides which value, if any, a
 * channel should take.
 */
module TrackerTypes {
  import opened Wrappers
  import opened TimeUtils
  import opened WeekSchedules

  datatype TransitionMode = Interpolation | SingleShot | Hold

  datatype TrackingData<D> = TrackingData(
    current: SingleChannelStatus<D>,
    next: Option<SingleChannelStatus<D>>,
    channelTime: int,
    currentEventInEffectSince: int,
    now: int)

  /** `HoldTracker::getChannelValue`: always the current event's value. */
  function HoldValue<D>(td: TrackingData<D>): (r: Option<D>)
    ensures r.Some?
  {
    Some(td.current.eventData)
  }

  /** The hold tracker looks at nothing but the current event. */
  lemma HoldDependsOnlyOnCurrent<D>(td: TrackingData<D>, td': TrackingData<D>)
    requires td.current.eventData == td'.current.eventData
    ensures HoldValue(td) == HoldValue(td') == Some(td.current.eventData)
  {
  }

  /** `SingleShotTracker::getChannelValue`: fire the current event once, when it happened
      after the channel was last updated. A time later in the week than now lies in the
      previous week. */
  function SingleShotValue<D>(td: TrackingData<D>): (r: Option<D>)
    ensures r.Some? ==> r.value == td.current.eventData
  {
    var channelTimeIsOfLastWeek := td.channelTime > td.now;
    var eventIsOfLastWeek := td.current.eventTime > td.now;
    if channelTimeIsOfLastWeek == eventIsOfLastWeek && td.channelTime < td.current.eventTime then
      Some(td.current.eventData)
    else if channelTimeIsOfLastWeek && !eventIsOfLastWeek then
      Some(td.current.eventData)
    else
      None
  }

  /** Position of a time of the week on a time line that ends at `now`: times later in the
      week than `now` belong to the previous week. */
  function Unwrapped(x: int, now: int): int {
    if x > now then x - SecondsPerWeek else x
  }

  /** For times within one week, the single-shot tracker fires exactly when the event lies
      after the last channel update on the time line that ends at now. */
  lemma SingleShotFiresIffEventAfterUpdate<D>(td: TrackingData<D>)
    requires 0 <= td.channelTime < SecondsPerWeek && 0 <= td.current.eventTime < SecondsPerWeek
    ensures SingleShotValue(td).Some? <==> Unwrapped(td.channelTime, td.now) < Unwrapped(td.current.eventTime, td.now)
  {
  }

  /** Once the channel time is set to now, the single-shot tracker stays silent. */
  lemma SingleShotSilentAfterUpdate<D>(td: TrackingData<D>)
    requires td.channelTime == td.now
    ensures SingleShotValue(td).None?
  {
  }

  /** An update late in the previous week, and an event early in this week: the event fires. */
  lemma SingleShotAfterWrapAround()
    ensures SingleShotValue(TrackingData(SingleChannelStatus(3600, 1), None,
                                         6 * SecondsPerDay + 23 * 3600, 6 * SecondsPerDay + 22 * 3600,
                                         2 * 3600)) == Some(1)
  {
  }

  /** `InterpolationTracker::getChannelValue`. The arithmetic between the two events is
      floating point; it is the parameter `interpolate`, applied to the current event, the
      next event and the seconds the current event has been in effect. */
  function InterpolationValue<D>(td: TrackingData<D>,
                                 interpolate: (SingleChannelStatus<D>, SingleChannelStatus<D>, int) -> D)
    : (r: Option<D>)
    ensures td.next.None? ==> r.None?
    ensures td.next.Some? ==> r.Some?
    ensures td.next.Some? && td.currentEventInEffectSince == 0 ==> r == Some(td.current.eventData)
    ensures td.next.Some? && td.currentEventInEffectSince != 0 ==>
              r == Some(interpolate(td.current, td.next.value, td.currentEventInEffectSince))
  {
    if td.next.None? then None
    else if td.currentEventInEffectSince == 0 then Some(td.current.eventData)
    else Some(interpolate(td.current, td.next.value, td.currentEventInEffectSince))
  }

  /** At the moment an event takes effect, interpolation agrees with holding it. */
  lemma InterpolationStartsAtHold<D>(td: TrackingData<D>,
                                     interpolate: (SingleChannelStatus<D>, SingleChannelStatus<D>, int) -> D)
    requires td.next.Some? && td.currentEventInEffectSince == 0
    ensures InterpolationValue(td, interpolate) == HoldValue(td)
  {
  }

  /** The value of the selected tracker (the `std::visit` over the tracker variant). */
  function TrackerValue<D>(mode: TransitionMode, td: TrackingData<D>,
                           interpolate: (SingleChannelStatus<D>, SingleChannelStatus<D>, int) -> D)
    : (r: Option<D>)
    ensures r.Some? && mode != Interpolation ==> r.value == td.current.eventData
    ensures mode == Hold ==> r.Some?
    ensures mode == Interpolation ==> (r.None? <==> td.next.None?)
  {
    match mode
    case Interpolation => InterpolationValue(td, interpolate)
    case SingleShot => SingleShotValue(td)
    case Hold => HoldValue(td)
  }
}
