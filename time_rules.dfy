/** The date and time rules of lib/utils.ts: the weekday test and the 24-hour cancel cutoff.
    Civil dates are day numbers (day 0 is 1970-01-01), instants are milliseconds, and an
    appointment's start is its date at midnight plus the clock time of its time text. */
module TimeRules {
  import opened Options
  import opened Text

  const MsPerSecond := 1000
  const MsPerHour := 3_600_000
  const MsPerDay := 86_400_000

  /** `Date.getDay()`: Sunday = 0, Monday = 1, ..., Saturday = 6. Day 0 is a Thursday. */
  function Weekday(day: int): (w: int)
    ensures 0 <= w < 7
  {
    (day + 4) % 7
  }

  /** `isWeekday`: the day is Monday to Friday. */
  predicate IsWeekday(day: int) {
    Weekday(day) >= 1 && Weekday(day) <= 5
  }

  /** A day is a weekday exactly when it is neither a Sunday (0) nor a Saturday (6). */
  lemma WeekdayIffNotWeekend(day: int)
    ensures IsWeekday(day) <==> Weekday(day) != 0 && Weekday(day) != 6
  {
  }

  /** Days of the week follow one another and repeat every seven days. */
  lemma WeekdaySuccession(day: int)
    ensures Weekday(day + 1) == (Weekday(day) + 1) % 7
    ensures Weekday(day + 7) == Weekday(day)
  {
  }

  /** 2025-03-10 (day 20157) is a Monday; 2025-03-08 and 2025-03-09 are a Saturday and a Sunday. */
  lemma WeekdayExamples()
    ensures Weekday(20157) == 1 && IsWeekday(20157)
    ensures Weekday(20155) == 6 && !IsWeekday(20155)
    ensures Weekday(20156) == 0 && !IsWeekday(20156)
  {
  }

  /** A field of exactly two decimal digits. */
  predicate IsTwoDigitField(f: string) {
    |f| == 2 && AllDigits(f)
  }

  /** Milliseconds after midnight of an `HH:MM` or `HH:MM:SS` time, as the date-time text
      `${date}T${time}` is read by `new Date`; None when it does not read as a time (an
      Invalid Date, whose `getTime()` is NaN). */
  function ClockMs(time: string): (ms: Option<int>)
    ensures ms.Some? ==> 0 <= ms.value < MsPerDay
  {
    var f := Split(time, ':');
    if (|f| == 2 || |f| == 3) && (forall i | 0 <= i < |f| :: IsTwoDigitField(f[i])) then
      var h, m := DigitsValue(f[0]), DigitsValue(f[1]);
      var s := if |f| == 3 then DigitsValue(f[2]) else 0;
      if h <= 23 && m <= 59 && s <= 59 then
        assert h * 60 + m <= 1439;
        assert (h * 60 + m) * 60 + s <= 86399;
        Some(((h * 60 + m) * 60 + s) * MsPerSecond)
      else None
    else None
  }

  /** The instant `new Date(`${date}T${time}`)`, taking local time as civil time. */
  function StartInstant(date: int, time: string): (start: Option<int>)
    ensures start.Some? <==> ClockMs(time).Some?
    ensures start.Some? ==> date * MsPerDay <= start.value < (date + 1) * MsPerDay
  {
    match ClockMs(time)
    case Some(ms) => Some(date * MsPerDay + ms)
    case None => None
  }

  /** `isMoreThan24HoursAway(date, time)` evaluated at the instant `now`: the start is strictly
      more than 24 hours after `now`. The source divides the difference by 3 600 000 and compares
      with 24; on whole milliseconds that is this integer comparison. An unreadable start gives
      NaN, and NaN > 24 is false. */
  predicate IsMoreThan24HoursAway(date: int, time: string, now: int) {
    match StartInstant(date, time)
    case Some(start) => start - now > 24 * MsPerHour
    case None => false
  }

  /** The cutoff is strict: exactly 24 hours away is not enough, 25 hours is, 23 hours is not. */
  lemma CutoffBoundary(date: int, time: string, start: int)
    requires StartInstant(date, time) == Some(start)
    ensures !IsMoreThan24HoursAway(date, time, start - 24 * MsPerHour)
    ensures IsMoreThan24HoursAway(date, time, start - 25 * MsPerHour)
    ensures !IsMoreThan24HoursAway(date, time, start - 23 * MsPerHour)
    ensures IsMoreThan24HoursAway(date, time, start - 24 * MsPerHour - 1)
  {
  }

  /** If the cutoff holds now, it held at every earlier instant. */
  lemma CutoffMonotone(date: int, time: string, now: int, earlier: int)
    requires earlier <= now && IsMoreThan24HoursAway(date, time, now)
    ensures IsMoreThan24HoursAway(date, time, earlier)
  {
  }

  /** A start more than 24 hours away is strictly after `now`. */
  lemma CutoffImpliesFuture(date: int, time: string, now: int)
    requires IsMoreThan24HoursAway(date, time, now)
    ensures StartInstant(date, time).Some? && StartInstant(date, time).value > now
  {
  }

  /** A readable `HH:MM:SS` is worth its hours, minutes and seconds; a field out of range (an hour
      above 23, a minute or second above 59) makes the time unreadable. */
  lemma ClockMsOfFields(time: string, hh: string, mm: string, ss: string)
    requires IsTwoDigitField(hh) && IsTwoDigitField(mm) && IsTwoDigitField(ss)
    requires time == hh + ":" + mm + ":" + ss
    ensures DigitsValue(hh) <= 23 && DigitsValue(mm) <= 59 && DigitsValue(ss) <= 59 ==>
      ClockMs(time) == Some(DigitsValue(hh) * MsPerHour + DigitsValue(mm) * 60_000 + DigitsValue(ss) * MsPerSecond)
    ensures DigitsValue(hh) > 23 || DigitsValue(mm) > 59 || DigitsValue(ss) > 59 ==> ClockMs(time) == None
  {
    ThreeFields(time, hh, mm, ss);
    ClockMsOfSplit(time, [hh, mm, ss]);
  }

  /** `ClockMs` in terms of the fields `split(":")` gives, once those are two-digit fields. */
  lemma ClockMsOfSplit(time: string, f: seq<string>)
    requires Split(time, ':') == f && (|f| == 2 || |f| == 3)
    requires IsTwoDigitField(f[0]) && IsTwoDigitField(f[1]) && (|f| == 3 ==> IsTwoDigitField(f[2]))
    ensures var sec := if |f| == 3 then DigitsValue(f[2]) else 0;
      ClockMs(time) == if DigitsValue(f[0]) <= 23 && DigitsValue(f[1]) <= 59 && sec <= 59
        then Some(DigitsValue(f[0]) * MsPerHour + DigitsValue(f[1]) * 60_000 + sec * MsPerSecond)
        else None
  {
    var sec := if |f| == 3 then DigitsValue(f[2]) else 0;
    assert forall i | 0 <= i < |f| :: IsTwoDigitField(f[i]);
    ClockArithmetic(DigitsValue(f[0]), DigitsValue(f[1]), sec);
  }

  lemma ClockArithmetic(h: int, m: int, s: int)
    ensures ((h * 60 + m) * 60 + s) * MsPerSecond == h * MsPerHour + m * 60_000 + s * MsPerSecond
  {
  }

  lemma ThreeFields(time: string, hh: string, mm: string, ss: string)
    requires IsTwoDigitField(hh) && IsTwoDigitField(mm) && IsTwoDigitField(ss)
    requires time == hh + ":" + mm + ":" + ss
    ensures Split(time, ':') == [hh, mm, ss]
  {
    NoColonInField(hh);
    NoColonInField(mm);
    NoColonInField(ss);
    assert time == hh + [':'] + (mm + [':'] + ss);
    SplitAfterField(hh, ':', mm + [':'] + ss);
    SplitAfterField(mm, ':', ss);
    SplitWithoutSeparator(ss, ':');
  }

  /** A readable `HH:MM` is worth its hours and minutes; an hour above 23 or a minute above 59
      makes it unreadable. */
  lemma ClockMsOfHourMinute(time: string, hh: string, mm: string)
    requires IsTwoDigitField(hh) && IsTwoDigitField(mm)
    requires time == hh + ":" + mm
    ensures DigitsValue(hh) <= 23 && DigitsValue(mm) <= 59 ==>
      ClockMs(time) == Some(DigitsValue(hh) * MsPerHour + DigitsValue(mm) * 60_000)
    ensures DigitsValue(hh) > 23 || DigitsValue(mm) > 59 ==> ClockMs(time) == None
  {
    TwoFields(time, hh, mm);
    ClockMsOfSplit(time, [hh, mm]);
  }

  lemma TwoFields(time: string, hh: string, mm: string)
    requires IsTwoDigitField(hh) && IsTwoDigitField(mm)
    requires time == hh + ":" + mm
    ensures Split(time, ':') == [hh, mm]
  {
    NoColonInField(hh);
    NoColonInField(mm);
    assert time == hh + [':'] + mm;
    SplitAfterField(hh, ':', mm);
    SplitWithoutSeparator(mm, ':');
  }

  lemma NoColonInField(f: string)
    requires IsTwoDigitField(f)
    ensures ':' !in f
  {
    assert f == [f[0], f[1]];
  }

  /** `HH:MM` and `HH:MM:00` denote the same clock time. */
  lemma {:induction false} ClockMsIgnoresZeroSeconds(hm: string)
    requires Count(hm, ':') == 1
    ensures ClockMs(hm + ":00") == ClockMs(hm)
  {
    var f := Split(hm, ':');
    assert f[0] + [':'] + f[1] == hm by {
      JoinSplit(hm, ':');
      assert f[1..] == [f[1]];
    }
    SplitAfterField(f[0], ':', f[1] + ":00");
    assert hm + ":00" == f[0] + [':'] + (f[1] + [':'] + "00");
    assert f[1] + ":00" == f[1] + [':'] + "00";
    SplitAfterField(f[1], ':', "00");
    SplitWithoutSeparator("00", ':');
    assert Split(f[1] + ":00", ':') == [f[1], "00"];
    var g := Split(hm + ":00", ':');
    assert g == [f[0], f[1], "00"];
    assert DigitsValue("00") == 0 by {
      assert "00"[..1] == "0";
      assert "0"[..0] == "";
    }
  }
}
