/**
 * The rolling window of main.py: the `ROLLBACK_DAYS` dates ending today,
 * oldest first, and the two delete bounds built from its first and last
 * date.  A date is a day ordinal; `dayText` stands for `strftime('%Y-%m-%d')`
 * and `parseDate` for reading such a text back.  An instant is a count of
 * seconds, day `d` beginning at `d * DAY_SECONDS`.
 */
module Window {
  import opened Wrappers
  import opened Schema

  const DAY_SECONDS: nat := 86400

  /** The clock text appended to the first date. */
  const START_CLOCK: string := "00:00:00"
  /** The clock text appended to the last date. */
  const END_CLOCK: string := "23:59:59"
  /** The column the delete bounds apply to. */
  const TIMESTAMP_COL: string := "start"

  /** `xs[::-1]` */
  function Reverse<T>(xs: seq<T>): (r: seq<T>)
    ensures |r| == |xs| && forall k :: 0 <= k < |xs| ==> r[k] == xs[|xs| - 1 - k]
  {
    seq(|xs|, k requires 0 <= k < |xs| => xs[|xs| - 1 - k])
  }

  /** The comprehension over `range(ROLLBACK_DAYS)`, today first, then reversed. */
  function TargetDays(today: int): (days: seq<int>)
    ensures |days| == ROLLBACK_DAYS
  {
    Reverse(seq(ROLLBACK_DAYS, i requires 0 <= i < ROLLBACK_DAYS => today - i))
  }

  /** `target_dates`: each day rendered as text, in the same order. */
  function TargetDates(today: int, dayText: int -> string): (dates: seq<string>)
    ensures |dates| == ROLLBACK_DAYS
    ensures forall k :: 0 <= k < ROLLBACK_DAYS ==> dates[k] == dayText(today - (ROLLBACK_DAYS - 1) + k)
  {
    Reverse(seq(ROLLBACK_DAYS, i requires 0 <= i < ROLLBACK_DAYS => dayText(today - i)))
  }

  /** The window holds `ROLLBACK_DAYS` consecutive days in ascending order, the last of them today. */
  lemma TargetDaysAscending(today: int)
    ensures |TargetDays(today)| == ROLLBACK_DAYS
    ensures forall k :: 0 <= k < ROLLBACK_DAYS ==> TargetDays(today)[k] == today - (ROLLBACK_DAYS - 1) + k
    ensures forall k :: 0 < k < ROLLBACK_DAYS ==> TargetDays(today)[k] == TargetDays(today)[k - 1] + 1
    ensures TargetDays(today)[ROLLBACK_DAYS - 1] == today
  {
  }

  /** Each date text is the text of the day at the same position. */
  lemma TargetDatesAreDayTexts(today: int, dayText: int -> string)
    ensures |TargetDates(today, dayText)| == ROLLBACK_DAYS
    ensures forall k :: 0 <= k < ROLLBACK_DAYS ==> TargetDates(today, dayText)[k] == dayText(TargetDays(today)[k])
  {
  }

  /** `start_date`: the first target date, the oldest day of the window. */
  function StartDate(today: int, dayText: int -> string): (r: string)
    ensures r == dayText(today - (ROLLBACK_DAYS - 1))
  {
    TargetDates(today, dayText)[0]
  }

  /** `end_date`: the last target date, today. */
  function EndDate(today: int, dayText: int -> string): (r: string)
    ensures r == dayText(today)
  {
    TargetDates(today, dayText)[ROLLBACK_DAYS - 1]
  }

  /** `'{} 00:00:00'.format(start_date)`: the date, a space, and the clock of the day's first second. */
  function StartBound(startDate: string): (r: string)
    ensures |r| == |startDate| + 9 && r[..|startDate|] == startDate && r[|startDate|] == ' '
    ensures ParseClock(r[|startDate| + 1..]) == Some(0)
  {
    ClockBounds();
    assert (startDate + " " + START_CLOCK)[|startDate| + 1..] == START_CLOCK;
    startDate + " " + START_CLOCK
  }

  /** `'{} 23:59:59'.format(end_date)`: the date, a space, and the clock of the day's last second. */
  function EndBound(endDate: string): (r: string)
    ensures |r| == |endDate| + 9 && r[..|endDate|] == endDate && r[|endDate|] == ' '
    ensures ParseClock(r[|endDate| + 1..]) == Some(DAY_SECONDS - 1)
  {
    ClockBounds();
    assert (endDate + " " + END_CLOCK)[|endDate| + 1..] == END_CLOCK;
    endDate + " " + END_CLOCK
  }

  /** The bounds passed to `update` are the oldest day's midnight and the newest day's last second. */
  lemma BoundsOfWindow(today: int, dayText: int -> string)
    ensures
      var dates := TargetDates(today, dayText);
      && |dates| == ROLLBACK_DAYS
      && StartBound(dates[0]) == dayText(today - (ROLLBACK_DAYS - 1)) + " 00:00:00"
      && EndBound(dates[ROLLBACK_DAYS - 1]) == dayText(today) + " 23:59:59"
  {
    TargetDaysAscending(today);
    TargetDatesAreDayTexts(today, dayText);
  }

  // ---------------------------------------------------------------- reading a bound back

  function DigitValue(c: char): Option<nat>
  {
    if '0' <= c <= '9' then Some(c as int - '0' as int) else None
  }

  /** Two decimal digits as a number below 100, when both are digits. */
  function TwoDigits(a: char, b: char): (r: Option<nat>)
    ensures r.Some? ==> r.value < 100
  {
    match (DigitValue(a), DigitValue(b))
    case (Some(x), Some(y)) => Some(10 * x + y)
    case _ => None
  }

  /** An `HH:MM:SS` text as seconds since midnight. */
  function ParseClock(text: string): (r: Option<nat>)
    ensures r.Some? ==> r.value < DAY_SECONDS
  {
    if |text| != 8 || text[2] != ':' || text[5] != ':' then None
    else
      match (TwoDigits(text[0], text[1]), TwoDigits(text[3], text[4]), TwoDigits(text[6], text[7]))
      case (Some(h), Some(m), Some(s)) =>
        if h < 24 && m < 60 && s < 60 then Some(h * 3600 + m * 60 + s) else None
      case _ => None
  }

  /** The two clock texts are the first and the last second of a day. */
  lemma ClockBounds()
    ensures ParseClock(START_CLOCK) == Some(0)
    ensures ParseClock(END_CLOCK) == Some(DAY_SECONDS - 1)
  {
    assert TwoDigits('0', '0') == Some(0);
    assert TwoDigits('2', '3') == Some(23);
    assert TwoDigits('5', '9') == Some(59);
  }

  /** A `YYYY-MM-DD HH:MM:SS` bound as an instant, the date read by `parseDate`. */
  function ParseBound(text: string, parseDate: string -> Option<int>): Option<int>
  {
    var n := |text|;
    if n < 9 || text[n - 9] != ' ' then None
    else
      match (parseDate(text[..n - 9]), ParseClock(text[n - 8..]))
      case (Some(d), Some(c)) => Some(d * DAY_SECONDS + c)
      case _ => None
  }

  /** A bound built from a date text and a clock reads back as that day's second. */
  lemma ParseBoundOf(date: string, clock: string, parseDate: string -> Option<int>)
    requires |clock| == 8 && ParseClock(clock).Some? && parseDate(date).Some?
    ensures ParseBound(date + " " + clock, parseDate) == Some(parseDate(date).value * DAY_SECONDS + ParseClock(clock).value)
  {
    var text := date + " " + clock;
    var n := |text|;
    assert text[n - 9] == ' ';
    assert text[..n - 9] == date;
    assert text[n - 8..] == clock;
  }

  /** The instants of the two bounds: midnight of the first day and the last second of the last. */
  lemma BoundInstants(first: int, last: int, dayText: int -> string, parseDate: string -> Option<int>)
    requires parseDate(dayText(first)) == Some(first) && parseDate(dayText(last)) == Some(last)
    ensures ParseBound(StartBound(dayText(first)), parseDate) == Some(first * DAY_SECONDS)
    ensures ParseBound(EndBound(dayText(last)), parseDate) == Some(last * DAY_SECONDS + DAY_SECONDS - 1)
  {
    ClockBounds();
    ParseBoundOf(dayText(first), START_CLOCK, parseDate);
    ParseBoundOf(dayText(last), END_CLOCK, parseDate);
  }

  /** The day an instant falls on. */
  function DayOf(ts: int): int
  {
    ts / DAY_SECONDS
  }

  /** Closed bounds from the first day's midnight to the last day's final second cover whole days, no more. */
  lemma BoundsCoverWholeDays(ts: int, first: int, last: int)
    ensures first * DAY_SECONDS <= ts <= last * DAY_SECONDS + DAY_SECONDS - 1 <==> first <= DayOf(ts) <= last
  {
    var q, r := ts / DAY_SECONDS, ts % DAY_SECONDS;
    assert ts == q * DAY_SECONDS + r && 0 <= r < DAY_SECONDS;
    if q < first {
      assert (first - q) * DAY_SECONDS >= DAY_SECONDS;
    }
    if q > last {
      assert (q - last) * DAY_SECONDS >= DAY_SECONDS;
    }
    if first <= q {
      assert (q - first) * DAY_SECONDS >= 0;
    }
    if q <= last {
      assert (last - q) * DAY_SECONDS >= 0;
    }
  }

  /**
   * End to end: when `parseDate` reads back what `dayText` writes, the bounds
   * built from `target_dates` select exactly the instants on one of its days.
   */
  lemma WindowSelectsTargetDays(today: int, dayText: int -> string, parseDate: string -> Option<int>, ts: int)
    requires forall d :: parseDate(dayText(d)) == Some(d)
    ensures
      var dates := TargetDates(today, dayText);
      && |dates| == ROLLBACK_DAYS
      && ParseBound(StartBound(dates[0]), parseDate) == Some((today - (ROLLBACK_DAYS - 1)) * DAY_SECONDS)
      && ParseBound(EndBound(dates[ROLLBACK_DAYS - 1]), parseDate) == Some(today * DAY_SECONDS + DAY_SECONDS - 1)
      && ((today - (ROLLBACK_DAYS - 1)) * DAY_SECONDS <= ts <= today * DAY_SECONDS + DAY_SECONDS - 1
          <==> DayOf(ts) in TargetDays(today))
  {
    var first := today - (ROLLBACK_DAYS - 1);
    TargetDaysAscending(today);
    TargetDatesAreDayTexts(today, dayText);
    BoundInstants(first, today, dayText, parseDate);
    BoundsCoverWholeDays(ts, first, today);
    var days := TargetDays(today);
    if first <= DayOf(ts) <= today {
      assert days[DayOf(ts) - first] == DayOf(ts);
    }
  }
}
