/**
 `format_cleaning_date`: whether a parsed schedule falls on today, and the
 timestamp text of today's cleaning when it does. `datetime.today()` is the
 parameter `today`.
 */
module Occurrence {
  import opened Options
  import opened Text
  import opened Calendar
  import opened Schedule
  import opened Timestamps

  /**
   The loop over `date[0]`: skip the days that are not `weekday`, and return
   `jobAt` at the first one that is. Falling off the end returns `None`.
   */
  function ScanDays(days: seq<int>, weekday: int, jobAt: string): (r: Option<string>)
    ensures r.Some? <==> weekday in days
    ensures r.Some? ==> r.value == jobAt
  {
    if days == [] then None
    else if days[0] != weekday then ScanDays(days[1..], weekday, jobAt)
    else Some(jobAt)
  }

  /**
   `format_cleaning_date(date)` on the day `today`: the text
   "<today's date> <time>:00" when today's weekday is one of the schedule's
   days, `None` otherwise. The time is inserted as it stands, unpadded.
   */
  function FormatCleaningDate(dates: SheetDates, today: Date): (r: Option<string>)
    requires ValidDate(today)
    ensures r.Some? <==> Weekday(today) in dates.days
    ensures r.Some? ==> r.value == DateText(today) + " " + dates.time + ":00"
  {
    ScanDays(dates.days, Weekday(today), DateText(today) + " " + dates.time + ":00")
  }

  /** A time of one- or two-digit hour and minute fields, as the schedules write them. */
  predicate ClockTime(time: string, h: string, m: string) {
    time == h + ":" + m && ShortField(h, 24) && ShortField(m, 60)
  }

  /** The due timestamp reads back, through `strptime`, as today at the scheduled hour and minute. */
  lemma JobAtParses(dates: SheetDates, today: Date, h: string, m: string)
    requires ValidDate(today) && Weekday(today) in dates.days
    requires ClockTime(dates.time, h, m)
    ensures ParseTimestamp(FormatCleaningDate(dates, today).value)
      == Some(DateTime(today, DigitsValue(h), DigitsValue(m), 0))
  {
    assert FormatCleaningDate(dates, today).value == StampText(today, h, m, "00");
    assert AllDigits("00") && DigitsValue("00") == 0 by {
      ShortDigitsValue("00");
    }
    ParseFields(today, h, m, "00");
  }

  /**
   `get_datetime_passed_seconds(job_at, reverse=True)`, for the `job_at` that
   `format_cleaning_date` returns, against a reading of the clock is the
   number of seconds still to wait until the cleaning at `hour`:`minute`
   today: positive while it lies ahead, zero at the very second, negative
   after. `nowText` is any text whose part before the first '.' parses to
   `now`; `str(datetime.now())` is one (`Timestamps.NowTextParses`).
   */
  lemma SecondsUntilDue(dates: SheetDates, today: Date, h: string, m: string, hour: int, minute: int,
                        jobAt: string, nowText: string, now: DateTime, clock: string)
    requires ValidDate(today) && FormatCleaningDate(dates, today) == Some(jobAt)
    requires ClockTime(dates.time, h, m) && hour == DigitsValue(h) && minute == DigitsValue(m)
    requires nowText != "" && ParseTimestamp(BeforeFirstDot(nowText)) == Some(now)
    ensures ValidDateTime(DateTime(today, hour, minute, 0)) && ValidDateTime(now)
    ensures PassedSeconds(jobAt, Some(nowText), clock, true)
      == Some(EpochSeconds(DateTime(today, hour, minute, 0)) - EpochSeconds(now))
  {
    JobAtCutParses(dates, today, h, m, hour, minute, jobAt);
    PassedOf(jobAt, nowText, DateTime(today, hour, minute, 0), now, clock, true);
  }

  /** The due timestamp has no fractional part for `get_datetime_passed_seconds` to cut off. */
  lemma JobAtCutParses(dates: SheetDates, today: Date, h: string, m: string, hour: int, minute: int, jobAt: string)
    requires ValidDate(today) && FormatCleaningDate(dates, today) == Some(jobAt)
    requires ClockTime(dates.time, h, m) && hour == DigitsValue(h) && minute == DigitsValue(m)
    ensures ParseTimestamp(BeforeFirstDot(jobAt)) == Some(DateTime(today, hour, minute, 0))
  {
    assert jobAt == StampText(today, h, m, "00");
    assert AllDigits("00") && DigitsValue("00") == 0 by {
      ShortDigitsValue("00");
    }
    ParseCutStamp(today, h, m, "00");
  }

  /** A schedule that names every weekday fires on every valid day. */
  lemma EveryDayFires(dates: SheetDates, today: Date)
    requires ValidDate(today)
    requires forall d :: 0 <= d <= 6 ==> d in dates.days
    ensures FormatCleaningDate(dates, today).Some?
  {
    var w := Weekday(today);
    assert w in dates.days;
  }

  /** "Ежедневно" ("daily") in a schedule with a time makes it fire on every valid day. */
  lemma DailyScheduleFiresEveryDay(text: string, today: Date)
    requires ValidDate(today)
    requires KeywordIn(text, 0)
    requires SliceSheetDates(text).Some?
    ensures FormatCleaningDate(SliceSheetDates(text).value, today).Some?
  {
    DailyMeansEveryDay(text);
    EveryDayFires(SliceSheetDates(text).value, today);
  }

  /**
   On two consecutive days that both fire, the two due timestamps lie exactly
   one day (86400 seconds) apart.
   */
  lemma ConsecutiveDueTimes(dates: SheetDates, today: Date, h: string, m: string)
    requires ValidDate(today) && today != Date(MaxYear, 12, 31)
    requires Weekday(today) in dates.days && Weekday(NextDay(today)) in dates.days
    requires ClockTime(dates.time, h, m)
    ensures ValidDate(NextDay(today))
    ensures var first := DateTime(today, DigitsValue(h), DigitsValue(m), 0);
      var second := DateTime(NextDay(today), DigitsValue(h), DigitsValue(m), 0);
      ValidDateTime(first) && ValidDateTime(second)
      && ParseTimestamp(FormatCleaningDate(dates, today).value) == Some(first)
      && ParseTimestamp(FormatCleaningDate(dates, NextDay(today)).value) == Some(second)
      && EpochSeconds(second) - EpochSeconds(first) == 86400
  {
    NextDayOrdinal(today);
    JobAtParses(dates, today, h, m);
    JobAtParses(dates, NextDay(today), h, m);
  }
}
