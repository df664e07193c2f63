/**
 * The soft timer driver: a process-wide table of timer settings with one "executed today"
 * flag per slot, and the round of the timer task that fires every enabled timer whose
 * weekday and time of day have come and that has not fired yet today.
 */
module SoftTimers {
  import opened Wrappers
  import opened Algorithms
  import Bitsets

  /** `single_timer_settings` without the payload. `weekdayMask` holds the bits of the
      `int8_t` mask; bit `d` enables weekday `d` (0 is Sunday). */
  class TimerSettings {
    const timeOfDay: nat
    const deviceIndex: nat
    const enabled: bool
    const weekdayMask: nat

    constructor (time: nat, device: nat, on: bool, mask: nat)
      ensures timeOfDay == time && deviceIndex == device && enabled == on && weekdayMask == mask
    {
      timeOfDay := time;
      deviceIndex := device;
      enabled := on;
      weekdayMask := mask;
    }
  }

  /** No settings object is registered twice. */
  predicate DistinctTimers(s: seq<TimerSettings?>) {
    forall i, j :: 0 <= i < j < |s| && s[i] != null ==> s[i] != s[j]
  }

  /** The timer table: the registered settings and the executed flags, slot by slot. */
  datatype Table = Table(timers: seq<TimerSettings?>, executed: seq<bool>)

  /** `add_timer` on the table: null, a registered timer or a full table are refused;
      otherwise the timer takes the first empty slot with its flag cleared. */
  function Added(t: Table, x: TimerSettings?): (r: (bool, Table))
    requires |t.timers| == |t.executed|
  {
    if x == null || x in t.timers then (false, t)
    else match Find(t.timers, null) {
      case None => (false, t)
      case Some(k) => (true, Table(t.timers[k := x], t.executed[k := false]))
    }
  }

  /** `remove_timer` on the table: the first slot holding the timer is emptied; its flag is
      left as it was. */
  function Removed(t: Table, x: TimerSettings?): (r: (bool, Table))
  {
    if x == null then (false, t)
    else match Find(t.timers, x) {
      case None => (false, t)
      case Some(k) => (true, t.(timers := t.timers[k := null]))
    }
  }

  /** Adding succeeds exactly for a new timer while a slot is free, and the added timer's
      flag starts cleared; a refused add changes nothing. */
  lemma AddRegisters(t: Table, x: TimerSettings?)
    requires |t.timers| == |t.executed| && DistinctTimers(t.timers)
    ensures var (ok, u) := Added(t, x);
              (ok <==> x != null && x !in t.timers && null in t.timers) && (!ok ==> u == t) &&
              |u.timers| == |u.executed| == |t.timers| && DistinctTimers(u.timers) &&
              (ok ==> exists k :: 0 <= k < |u.timers| && u.timers[k] == x && !u.executed[k])
  {
    var (ok, u) := Added(t, x);
    if ok {
      var k := Find(t.timers, null).value;
      assert u.timers[k] == x && !u.executed[k];
    }
  }

  /** Removing succeeds exactly for a registered timer, and then it is gone. */
  lemma RemoveUnregisters(t: Table, x: TimerSettings?)
    requires DistinctTimers(t.timers)
    ensures var (ok, u) := Removed(t, x);
              (ok <==> x != null && x in t.timers) && (!ok ==> u == t) &&
              u.executed == t.executed && (x != null ==> x !in u.timers) && DistinctTimers(u.timers)
  {
    var (ok, u) := Removed(t, x);
    if ok {
      var k := Find(t.timers, x).value;
      forall i | 0 <= i < |u.timers|
        ensures u.timers[i] != x
      {
        if i < k {
          assert t.timers[i] != x;
        } else if i > k {
          assert t.timers[k] != t.timers[i];
        }
      }
    }
  }

  /** Adding a timer and removing it again restores the registered timers. */
  lemma AddThenRemoveRestores(t: Table, x: TimerSettings?)
    requires |t.timers| == |t.executed|
    ensures var (ok, u) := Added(t, x);
              ok ==> Removed(u, x).0 && Removed(u, x).1.timers == t.timers
  {
    var (ok, u) := Added(t, x);
    if ok {
      var k := Find(t.timers, null).value;
      assert forall i :: 0 <= i < |t.timers| && i != k ==> u.timers[i] == t.timers[i] && t.timers[i] != x;
      assert u.timers[k] == x;
      assert u.timers[k := null] == t.timers;
    }
  }

  /** The fields of `localtime` the timer task uses: the day of the year, the weekday
      (0 is Sunday) and the seconds since midnight. */
  datatype Clock = Clock(yday: int, wday: nat, secondsOfDay: nat)

  /** At the first round of a new day every executed flag is cleared. */
  function ResetFlags(executed: seq<bool>, lastDayReset: int, yday: int): (r: seq<bool>)
    ensures |r| == |executed|
  {
    if lastDayReset != yday then seq(|executed|, _ => false) else executed
  }

  /** A timer fires when it is enabled, has not fired yet today, its weekday bit is set and
      its time of day has come. */
  predicate Fires(x: TimerSettings?, executed: bool, c: Clock) {
    x != null && x.enabled && !executed && Bitsets.Bit(x.weekdayMask, c.wday) && c.secondsOfDay >= x.timeOfDay
  }

  /** The slots whose action a round starts. */
  function Attempts(timers: seq<TimerSettings?>, flags: seq<bool>, c: Clock): (r: seq<bool>)
    requires |timers| == |flags|
    ensures |r| == |timers|
  {
    seq(|timers|, i requires 0 <= i < |timers| => Fires(timers[i], flags[i], c))
  }

  /** The executed flags after a round: a fired timer whose action succeeded is marked. */
  function FlagsAfterRound(timers: seq<TimerSettings?>, flags: seq<bool>, c: Clock, actionOk: nat -> bool): (r: seq<bool>)
    requires |timers| == |flags|
    ensures |r| == |flags|
  {
    seq(|timers|, i requires 0 <= i < |timers| =>
      if Fires(timers[i], flags[i], c) && actionOk(timers[i].deviceIndex) then true else flags[i])
  }

  /** A flag is set by a round only for a timer that fired and whose action succeeded; set
      flags stay set. */
  lemma FlagsOnlyOnSuccess(timers: seq<TimerSettings?>, flags: seq<bool>, c: Clock, actionOk: nat -> bool, i: nat)
    requires |timers| == |flags| && i < |timers|
    ensures var after := FlagsAfterRound(timers, flags, c, actionOk);
              after[i] <==> flags[i] || (Attempts(timers, flags, c)[i] && actionOk(timers[i].deviceIndex))
  {
  }

  /** Within one day a timer whose action succeeded does not fire again: a second round on
      the same day, at any time, skips it. */
  lemma {:induction false} FiresOncePerDay(timers: seq<TimerSettings?>, executed: seq<bool>, lastDayReset: int,
                                           c1: Clock, c2: Clock, actionOk: nat -> bool, i: nat)
    requires |timers| == |executed| && i < |timers| && c1.yday == c2.yday
    requires var flags := ResetFlags(executed, lastDayReset, c1.yday);
               Attempts(timers, flags, c1)[i] && actionOk(timers[i].deviceIndex)
    ensures var after := FlagsAfterRound(timers, ResetFlags(executed, lastDayReset, c1.yday), c1, actionOk);
              !Attempts(timers, ResetFlags(after, c1.yday, c2.yday), c2)[i]
  {
    var flags := ResetFlags(executed, lastDayReset, c1.yday);
    var after := FlagsAfterRound(timers, flags, c1, actionOk);
    assert after[i];
    assert ResetFlags(after, c1.yday, c2.yday) == after;
  }

  /** On a new day every enabled timer whose weekday and time have come fires, whatever it
      did the day before. */
  lemma NewDayRearms(timers: seq<TimerSettings?>, executed: seq<bool>, lastDayReset: int, c: Clock, i: nat)
    requires |timers| == |executed| && i < |timers| && lastDayReset != c.yday
    requires timers[i] != null && timers[i].enabled && Bitsets.Bit(timers[i].weekdayMask, c.wday)
    requires c.secondsOfDay >= timers[i].timeOfDay
    ensures Attempts(timers, ResetFlags(executed, lastDayReset, c.yday), c)[i]
  {
  }

  /** `soft_timer_driver<N>`'s static `timer_data` and the day its flags were last reset. */
  class SoftTimerDriver {
    const timers: array<TimerSettings?>
    const executed: array<bool>
    var lastDayReset: int

    ghost predicate Valid()
      reads this, timers, executed
    {
      timers.Length == executed.Length && DistinctTimers(timers[..])
    }

    function Contents(): (r: Table)
      reads this, timers, executed
    {
      Table(timers[..], executed[..])
    }

    /** `N` empty slots, no flag set, and no day reset yet (`last_day_resetted` is 0). */
    constructor (n: nat)
      ensures Valid() && fresh(timers) && fresh(executed)
      ensures Contents() == Table(seq(n, _ => null), seq(n, _ => false)) && lastDayReset == 0
    {
      timers := new TimerSettings?[n](_ => null);
      executed := new bool[n](_ => false);
      lastDayReset := 0;
    }

    /** `add_timer`. */
    method AddTimer(x: TimerSettings?) returns (ok: bool)
      requires Valid()
      modifies timers, executed
      ensures Valid()
      ensures (ok, Contents()) == Added(old(Contents()), x)
    {
      ghost var t := Contents();
      if x == null {
        return false;
      }
      var i := 0;
      while i < timers.Length
        invariant i <= timers.Length
        invariant forall j :: 0 <= j < i ==> timers[j] != x
      {
        if timers[i] == x {
          return false;
        }
        i := i + 1;
      }
      i := 0;
      while i < timers.Length
        invariant i <= timers.Length
        invariant forall j :: 0 <= j < i ==> timers[j] != null
      {
        if timers[i] == null {
          assert Find(t.timers, null) == Some(i);
          timers[i] := x;
          executed[i] := false;
          AddRegisters(t, x);
          return true;
        }
        i := i + 1;
      }
      ok := false;
    }

    /** `remove_timer`. */
    method RemoveTimer(x: TimerSettings?) returns (ok: bool)
      requires Valid()
      modifies timers
      ensures Valid()
      ensures (ok, Contents()) == Removed(old(Contents()), x)
    {
      ghost var t := Contents();
      if x == null {
        return false;
      }
      var i := 0;
      while i < timers.Length
        invariant i <= timers.Length
        invariant forall j :: 0 <= j < i ==> timers[j] != x
      {
        if timers[i] == x {
          assert Find(t.timers, x) == Some(i);
          timers[i] := null;
          RemoveUnregisters(t, x);
          return true;
        }
        i := i + 1;
      }
      ok := false;
    }

    /** One round of `handle_timers` at clock `c`; `actionOk` is whether a device accepts
        the timer's action. Returns which slots' actions were started. */
    method HandleTimers(c: Clock, actionOk: nat -> bool) returns (attempted: seq<bool>)
      requires Valid()
      modifies this, executed
      ensures Valid() && lastDayReset == c.yday
      ensures var flags := ResetFlags(old(executed[..]), old(lastDayReset), c.yday);
                attempted == Attempts(timers[..], flags, c) &&
                executed[..] == FlagsAfterRound(timers[..], flags, c, actionOk)
    {
      if lastDayReset != c.yday {
        var k := 0;
        while k < executed.Length
          invariant k <= executed.Length
          invariant forall j :: 0 <= j < k ==> !executed[j]
        {
          executed[k] := false;
          k := k + 1;
        }
        lastDayReset := c.yday;
      }
      assert executed[..] == ResetFlags(old(executed[..]), old(lastDayReset), c.yday);
      ghost var flags := executed[..];
      attempted := [];
      var i := 0;
      while i < timers.Length
        invariant i <= timers.Length && |attempted| == i && lastDayReset == c.yday
        invariant forall j :: 0 <= j < i ==> attempted[j] == Fires(timers[j], flags[j], c)
        invariant forall j :: 0 <= j < executed.Length ==>
                    executed[j] == if j < i then FlagsAfterRound(timers[..], flags, c, actionOk)[j] else flags[j]
      {
        var timer := timers[i];
        if timer == null || !timer.enabled || executed[i] || !Bitsets.Bit(timer.weekdayMask, c.wday) ||
           c.secondsOfDay < timer.timeOfDay {
          attempted := attempted + [false];
          i := i + 1;
          continue;
        }
        attempted := attempted + [true];
        if actionOk(timer.deviceIndex) {
          executed[i] := true;
        }
        i := i + 1;
      }
    }
  }
}
