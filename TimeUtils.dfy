/** Weekday stepping and the second-resolution time arithmetic of the firmware's
    time utilities. A weekday is the enum's uint32 underlying value: the enum can
    hold any such number, and only 0 (sunday) .. 6 (saturday) are named. */
module TimeUtils {

  const WeekdayModulus: nat := 0x1_0000_0000
  const Sunday: nat := 0
  const Monday: nat := 1
  const Saturday: nat := 6
  const SecondsPerDay: nat := 86400
  const SecondsPerWeek: nat := 7 * 86400

  predicate IsWeekday(d: nat) { d < 7 }

  /** getPreviousDay: sunday wraps to saturday, any other value is decremented. */
  function GetPreviousDay(d: nat): (r: nat)
    requires d < WeekdayModulus
    ensures r < WeekdayModulus
    ensures IsWeekday(d) ==> IsWeekday(r) && r == (d + 6) % 7
    ensures d != Sunday ==> r + 1 == d
  {
    if d == Sunday then Saturday else d - 1
  }

  /** getNextDay: saturday wraps to sunday, any other value is incremented in
      the 32-bit underlying type. */
  function GetNextDay(d: nat): (r: nat)
    requires d < WeekdayModulus
    ensures r < WeekdayModulus
    ensures IsWeekday(d) ==> IsWeekday(r) && r == (d + 1) % 7
    ensures d != Saturday && d + 1 < WeekdayModulus ==> r == d + 1
  {
    if d == Saturday then Sunday else (d + 1) % WeekdayModulus
  }

  lemma NextPreviousInverse(d: nat)
    requires IsWeekday(d)
    ensures GetNextDay(GetPreviousDay(d)) == d
    ensures GetPreviousDay(GetNextDay(d)) == d
  {
  }

  /** n applications of getNextDay. */
  function NextDayIterated(d: nat, n: nat): (r: nat)
    requires IsWeekday(d)
    ensures IsWeekday(r)
  {
    if n == 0 then d else GetNextDay(NextDayIterated(d, n - 1))
  }

  /** n applications of getPreviousDay. */
  function PreviousDayIterated(d: nat, n: nat): (r: nat)
    requires IsWeekday(d)
    ensures IsWeekday(r)
  {
    if n == 0 then d else GetPreviousDay(PreviousDayIterated(d, n - 1))
  }

  /** Reducing the first summand modulo 7 does not change the sum modulo 7. */
  lemma ModSevenAdd(a: nat, b: nat)
    ensures (a % 7 + b) % 7 == (a + b) % 7
  {
    var q := a / 7;
    assert a == 7 * q + a % 7;
    assert a + b == 7 * q + (a % 7 + b);
  }

  /** Adding whole weeks does not change a day modulo 7. */
  lemma MultipleOfSevenAdd(a: nat, n: nat)
    requires a < 7 && n % 7 == 0
    ensures (a + n) % 7 == a
  {
    assert a + n == 7 * (n / 7) + a;
  }

  lemma {:induction false} NextDayIteratedIsModular(d: nat, n: nat)
    requires IsWeekday(d)
    ensures NextDayIterated(d, n) == (d + n) % 7
  {
    if n == 0 {
      MultipleOfSevenAdd(d, 0);
    } else {
      var p := NextDayIterated(d, n - 1);
      NextDayIteratedIsModular(d, n - 1);
      assert NextDayIterated(d, n) == (p + 1) % 7;
      ModSevenAdd(d + n - 1, 1);
    }
  }

  lemma {:induction false} PreviousDayIteratedIsModular(d: nat, n: nat)
    requires IsWeekday(d)
    ensures (PreviousDayIterated(d, n) + n) % 7 == d
  {
    if n == 0 {
      MultipleOfSevenAdd(d, 0);
    } else {
      var p := PreviousDayIterated(d, n - 1);
      PreviousDayIteratedIsModular(d, n - 1);
      assert PreviousDayIterated(d, n) == (p + 6) % 7;
      ModSevenAdd(p + 6, n);
      ModSevenAdd(p + n - 1, 7);
    }
  }

  /** Seven steps forward, or any whole number of weeks, return to the starting day. */
  lemma WeekOfStepsForward(d: nat, n: nat)
    requires IsWeekday(d) && n % 7 == 0
    ensures NextDayIterated(d, n) == d
  {
    NextDayIteratedIsModular(d, n);
    MultipleOfSevenAdd(d, n);
  }

  /** Seven steps back, or any whole number of weeks, return to the starting day. */
  lemma WeekOfStepsBack(d: nat, n: nat)
    requires IsWeekday(d) && n % 7 == 0
    ensures PreviousDayIterated(d, n) == d
  {
    var p := PreviousDayIterated(d, n);
    PreviousDayIteratedIsModular(d, n);
    MultipleOfSevenAdd(p, n);
  }

  /** The fields of a broken-down `std::tm` that the time arithmetic reads. */
  datatype Tm = Tm(hour: int, min: int, sec: int, wday: int)

  /** The ranges the C library guarantees for these fields; tm_sec may be 60 on
      a leap second. */
  predicate ValidTm(tm: Tm) {
    0 <= tm.hour < 24 && 0 <= tm.min < 60 && 0 <= tm.sec <= 60 && 0 <= tm.wday < 7
  }

  /** getDayOfWeek(tm): tm_wday cast to the weekday enum, so a negative field wraps around
      in the 32-bit underlying type. */
  function GetDayOfWeek(tm: Tm): (r: nat)
    ensures r < WeekdayModulus
    ensures 0 <= tm.wday < WeekdayModulus ==> r == tm.wday
    ensures ValidTm(tm) ==> IsWeekday(r)
    ensures tm.wday < 0 && -(WeekdayModulus as int) <= tm.wday ==> r == tm.wday + WeekdayModulus
  {
    tm.wday % WeekdayModulus
  }

  /** getTimeOfDay in seconds. */
  function TimeOfDay(tm: Tm): (r: int)
    ensures ValidTm(tm) ==> 0 <= r <= SecondsPerDay
    ensures ValidTm(tm) && tm.sec < 60 ==> r < SecondsPerDay
  {
    tm.hour * 3600 + tm.min * 60 + tm.sec
  }

  /** For a valid time without a leap second the clock fields can be read back
      from the seconds of the day. */
  lemma TimeOfDayDecodes(tm: Tm)
    requires ValidTm(tm) && tm.sec < 60
    ensures TimeOfDay(tm) / 3600 == tm.hour
    ensures TimeOfDay(tm) % 3600 / 60 == tm.min
    ensures TimeOfDay(tm) % 60 == tm.sec
  {
    var r := TimeOfDay(tm);
    var m := tm.min * 60 + tm.sec;
    assert 0 <= m < 3600;
    assert r == tm.hour * 3600 + m;
    assert tm.sec < 60;
    assert m == tm.min * 60 + tm.sec;
  }

  /** sinceWeekBeginning(tm): time of day plus whole days since sunday. */
  function SinceWeekBeginning(tm: Tm): (r: int)
    ensures ValidTm(tm) ==> 0 <= r <= SecondsPerWeek
    ensures ValidTm(tm) && tm.sec < 60 ==> r < SecondsPerWeek
  {
    TimeOfDay(tm) + tm.wday * SecondsPerDay
  }

  /** Without a leap second the weekday and the time of day can be read back. */
  lemma SinceWeekBeginningDecodes(tm: Tm)
    requires ValidTm(tm) && tm.sec < 60
    ensures SinceWeekBeginning(tm) / SecondsPerDay == tm.wday
    ensures SinceWeekBeginning(tm) % SecondsPerDay == TimeOfDay(tm)
  {
    var t := TimeOfDay(tm);
    assert 0 <= t < SecondsPerDay;
    assert SinceWeekBeginning(tm) == tm.wday * SecondsPerDay + t;
  }

  /** A leap second on saturday at 23:59 reaches exactly one full week. */
  lemma LeapSecondReachesFullWeek()
    ensures SinceWeekBeginning(Tm(23, 59, 60, 6)) == SecondsPerWeek
  {
  }

  /** The zero-argument sinceWeekBeginning as written: it returns the time of
      day of the current date and adds no day offset. */
  function SinceWeekBeginningNowAsWritten(now: Tm): (r: int)
    ensures ValidTm(now) ==> 0 <= r <= SecondsPerDay
  {
    TimeOfDay(now)
  }

  /** The zero-argument sinceWeekBeginning as evidently intended: the same as
      the one-argument form applied to the current date. */
  function SinceWeekBeginningNow(now: Tm): (r: int)
    ensures r == SinceWeekBeginningNowAsWritten(now) + now.wday * SecondsPerDay
    ensures ValidTm(now) ==> 0 <= r <= SecondsPerWeek
  {
    SinceWeekBeginning(now)
  }

  /** On any day but sunday the two forms disagree by whole days. */
  lemma NowAsWrittenLosesDayOffset(now: Tm)
    requires ValidTm(now)
    ensures now.wday != Sunday ==> SinceWeekBeginningNowAsWritten(now) != SinceWeekBeginningNow(now)
  {
  }

  /** A concrete instance: monday 10:00 is 36000 s as written, 122400 s intended. */
  lemma NowAsWrittenMondayExample()
    ensures SinceWeekBeginningNowAsWritten(Tm(10, 0, 0, 1)) == 36000
    ensures SinceWeekBeginningNow(Tm(10, 0, 0, 1)) == 122400
  {
  }
}
