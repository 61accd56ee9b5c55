/**
 Timestamps as the source writes and reads them: `str(datetime)` renders
 "YYYY-MM-DD HH:MM:SS" (plus ".ffffff" when there are microseconds),
 `datetime.strptime(text, '%Y-%m-%d %H:%M:%S')` reads them back, and
 `get_datetime_passed_seconds` subtracts two of them.
 */
module Timestamps {
  import opened Options
  import opened Text
  import opened Calendar

  datatype DateTime = DateTime(date: Date, hour: int, minute: int, second: int)

  predicate ValidDateTime(t: DateTime) {
    ValidDate(t.date) && 0 <= t.hour < 24 && 0 <= t.minute < 60 && 0 <= t.second < 60
  }

  /** Seconds since 0001-01-01 00:00:00 minus one day; only differences of it are used. */
  function EpochSeconds(t: DateTime): int
    requires ValidDateTime(t)
  {
    Ordinal(t.date) * 86400 + t.hour * 3600 + t.minute * 60 + t.second
  }

  /** Lexicographic order on (date, hour, minute, second). */
  predicate Before(a: DateTime, b: DateTime) {
    DateBefore(a.date, b.date)
    || (a.date == b.date && a.hour < b.hour)
    || (a.date == b.date && a.hour == b.hour && a.minute < b.minute)
    || (a.date == b.date && a.hour == b.hour && a.minute == b.minute && a.second < b.second)
  }

  /** Second counts follow the order of the calendar and the clock, and tell distinct instants apart. */
  lemma ChronologicalOrder(a: DateTime, b: DateTime)
    requires ValidDateTime(a) && ValidDateTime(b)
    ensures Before(a, b) <==> EpochSeconds(a) < EpochSeconds(b)
    ensures a == b <==> EpochSeconds(a) == EpochSeconds(b)
  {
    OrdinalOrder(a.date, b.date);
    var oa, ob := Ordinal(a.date), Ordinal(b.date);
    if oa < ob {
      assert oa * 86400 + 86400 <= ob * 86400;
    } else if ob < oa {
      assert ob * 86400 + 86400 <= oa * 86400;
    }
  }

  // ---------------------------------------------------------------------
  // Rendering: str(date), str(datetime)
  // ---------------------------------------------------------------------

  /** `str(date)`: "YYYY-MM-DD". */
  function DateText(d: Date): (s: string)
    requires ValidDate(d)
    ensures |s| == 10
  {
    Fixed(d.year, 4) + "-" + Fixed(d.month, 2) + "-" + Fixed(d.day, 2)
  }

  /** `str(datetime)` for a datetime without microseconds: "YYYY-MM-DD HH:MM:SS". */
  function DateTimeText(t: DateTime): (s: string)
    requires ValidDateTime(t)
    ensures |s| == 19
  {
    DateText(t.date) + " " + Fixed(t.hour, 2) + ":" + Fixed(t.minute, 2) + ":" + Fixed(t.second, 2)
  }

  /** `str(datetime.now())`: the microseconds, when there are any, follow after a '.' as six digits. */
  function NowText(t: DateTime, micro: nat): string
    requires ValidDateTime(t) && micro < 1000000
  {
    DateTimeText(t) + (if micro == 0 then "" else "." + Fixed(micro, 6))
  }

  /** `str(x).split('.')[0]`: everything before the first '.', or all of `s` when it has none. */
  function BeforeFirstDot(s: string): string {
    if s == [] || s[0] == '.' then [] else [s[0]] + BeforeFirstDot(s[1..])
  }

  /** The cut is a prefix without '.', and it ends at a '.' or at the end of the text. */
  lemma {:induction false} BeforeFirstDotMeaning(s: string)
    ensures BeforeFirstDot(s) <= s
    ensures '.' !in BeforeFirstDot(s)
    ensures |BeforeFirstDot(s)| < |s| ==> s[|BeforeFirstDot(s)|] == '.'
  {
    if s != [] && s[0] != '.' {
      BeforeFirstDotMeaning(s[1..]);
    }
  }

  // ---------------------------------------------------------------------
  // Parsing: datetime.strptime(s, '%Y-%m-%d %H:%M:%S')
  // ---------------------------------------------------------------------

  /** The index just past the run of whitespace that starts at `i`. */
  function SpaceRunEnd(s: string, i: nat): (e: nat)
    requires i <= |s|
    ensures i <= e <= |s|
    decreases |s| - i
  {
    if i < |s| && IsSpace(s[i]) then SpaceRunEnd(s, i + 1) else i
  }

  /** `SpaceRunEnd` skips exactly the maximal run of whitespace. */
  lemma {:induction false} SpaceRunEndMeaning(s: string, i: nat)
    requires i <= |s|
    ensures forall k :: i <= k < SpaceRunEnd(s, i) ==> IsSpace(s[k])
    ensures SpaceRunEnd(s, i) == |s| || !IsSpace(s[SpaceRunEnd(s, i)])
    decreases |s| - i
  {
    if i < |s| && IsSpace(s[i]) {
      SpaceRunEndMeaning(s, i + 1);
    }
  }

  /** The value of the ASCII digit at `i`. */
  function DigitAt(s: string, i: nat): int
    requires i < |s|
  {
    s[i] as int - '0' as int
  }

  /**
   A `%m`, `%H`, `%M` or `%S` field at `i`: one digit, or two when a second
   follows; its value and the index after it. A third digit makes the field
   fail, since only a separator or the end of the text may follow a field.
   */
  function ShortNumber(s: string, i: nat): (r: Option<(int, nat)>)
    requires i <= |s|
    ensures r.Some? ==> i < r.value.1 <= |s|
  {
    if !(i < |s| && IsDigit(s[i])) then None
    else if !(i + 1 < |s| && IsDigit(s[i + 1])) then Some((DigitAt(s, i), i + 1))
    else if i + 2 < |s| && IsDigit(s[i + 2]) then None
    else Some((10 * DigitAt(s, i) + DigitAt(s, i + 1), i + 2))
  }

  /** A `%d` field at `i`: like `ShortNumber`, or a space followed by one digit 1..9. */
  function DayField(s: string, i: nat): (r: Option<(int, nat)>)
    requires i <= |s|
    ensures r.Some? ==> i < r.value.1 <= |s|
  {
    if i < |s| && s[i] == ' ' then
      if i + 1 < |s| && '1' <= s[i + 1] <= '9' then Some((DigitAt(s, i + 1), i + 2)) else None
    else ShortNumber(s, i)
  }

  /** The value of the four digits at `i`. */
  function YearValue(s: string, i: nat): int
    requires i + 4 <= |s|
  {
    1000 * DigitAt(s, i) + 100 * DigitAt(s, i + 1) + 10 * DigitAt(s, i + 2) + DigitAt(s, i + 3)
  }

  /**
   `datetime.strptime(s, '%Y-%m-%d %H:%M:%S')`: four digits of year, '-',
   month, '-', day, whitespace, hour, ':', minute, ':', second, and nothing
   after; `None` where Python raises `ValueError`, including a well-formed
   text naming no real date or time (February 30, hour 24, second 60, year 0).
   The fields are read left to right, one function per field.
   */
  function ParseTimestamp(s: string): (r: Option<DateTime>)
    ensures r.Some? ==> ValidDateTime(r.value)
  {
    if 5 <= |s| && IsDigit(s[0]) && IsDigit(s[1]) && IsDigit(s[2]) && IsDigit(s[3]) && s[4] == '-'
    then ParseMonth(s, YearValue(s, 0))
    else None
  }

  function ParseMonth(s: string, year: int): (r: Option<DateTime>)
    requires 5 <= |s|
    ensures r.Some? ==> ValidDateTime(r.value)
  {
    match ShortNumber(s, 5)
    case None => None
    case Some((month, i)) => if i < |s| && s[i] == '-' then ParseDay(s, year, month, i + 1) else None
  }

  function ParseDay(s: string, year: int, month: int, i: nat): (r: Option<DateTime>)
    requires i <= |s|
    ensures r.Some? ==> ValidDateTime(r.value)
  {
    match DayField(s, i)
    case None => None
    case Some((day, j)) =>
      var k := SpaceRunEnd(s, j);
      if j < k then ParseHour(s, Date(year, month, day), k) else None
  }

  function ParseHour(s: string, d: Date, i: nat): (r: Option<DateTime>)
    requires i <= |s|
    ensures r.Some? ==> ValidDateTime(r.value)
  {
    match ShortNumber(s, i)
    case None => None
    case Some((hour, j)) => if j < |s| && s[j] == ':' then ParseMinute(s, d, hour, j + 1) else None
  }

  function ParseMinute(s: string, d: Date, hour: int, i: nat): (r: Option<DateTime>)
    requires i <= |s|
    ensures r.Some? ==> ValidDateTime(r.value)
  {
    match ShortNumber(s, i)
    case None => None
    case Some((minute, j)) => if j < |s| && s[j] == ':' then ParseSecond(s, d, hour, minute, j + 1) else None
  }

  /** The seconds field, which must end the text, and the check that the six values name a real instant. */
  function ParseSecond(s: string, d: Date, hour: int, minute: int, i: nat): (r: Option<DateTime>)
    requires i <= |s|
    ensures r.Some? ==> ValidDateTime(r.value)
  {
    match ShortNumber(s, i)
    case None => None
    case Some((second, j)) =>
      var t := DateTime(d, hour, minute, second);
      if j == |s| && ValidDateTime(t) then Some(t) else None
  }

  /** The value of a digit string of length one, two or four, written out. */
  lemma ShortDigitsValue(a: string)
    requires AllDigits(a)
    ensures |a| == 1 ==> DigitsValue(a) == DigitAt(a, 0)
    ensures |a| == 2 ==> DigitsValue(a) == 10 * DigitAt(a, 0) + DigitAt(a, 1)
    ensures |a| == 4 ==> DigitsValue(a) == YearValue(a, 0)
  {
    if |a| == 4 {
      assert a[..3][..2] == a[..2];
      assert a[..3][..2][..1] == a[..1];
      assert a[..1][..0] == [];
    } else if |a| == 2 {
      assert a[..1][..0] == [];
    } else if |a| == 1 {
      assert a[..0] == [];
    }
  }

  /**
   `ShortNumber` reads exactly a digit run of length one or two, and its value
   is the run's decimal value.
   */
  lemma ShortNumberMeaning(s: string, i: nat)
    requires i <= |s|
    ensures ShortNumber(s, i).Some? <==> i < DigitRunEnd(s, i) <= i + 2
    ensures ShortNumber(s, i).Some? ==>
      ShortNumber(s, i).value == (DigitsValue(s[i..DigitRunEnd(s, i)]), DigitRunEnd(s, i))
  {
    var e := DigitRunEnd(s, i);
    if i < e {
      DigitRunEndInside(s, i, i + 1);
      if i + 1 < e {
        DigitRunEndInside(s, i, i + 2);
        ShortDigitsValue(s[i..i + 2]);
      } else {
        ShortDigitsValue(s[i..i + 1]);
      }
    }
  }

  /** A short field of one or two digits, followed by a non-digit or the end, reads as its value. */
  lemma ShortNumberOf(s: string, i: nat, a: string)
    requires i + |a| <= |s| && s[i..i + |a|] == a
    requires 1 <= |a| <= 2 && AllDigits(a)
    requires i + |a| == |s| || !IsDigit(s[i + |a|])
    ensures ShortNumber(s, i) == Some((DigitsValue(a), i + |a|))
  {
    ShortDigitsValue(a);
    assert a[0] == s[i];
    assert |a| == 2 ==> a[1] == s[i + 1];
  }

  /** A field is one or two digits whose value is below `bound`. */
  predicate ShortField(a: string, bound: int) {
    1 <= |a| <= 2 && AllDigits(a) && DigitsValue(a) < bound
  }

  lemma DateLayout(s: string, y: string, mo: string, dd: string)
    requires |y| == 4 && |mo| == 2 && |dd| == 2
    requires 10 <= |s| && s[..10] == y + "-" + mo + "-" + dd
    ensures s[..4] == y && s[4] == '-' && s[5..7] == mo && s[7] == '-' && s[8..10] == dd
  {
    var p := s[..10];
    assert s[..4] == p[..4] && s[5..7] == p[5..7] && s[8..10] == p[8..10];
  }

  /** The year field and its '-'. */
  lemma YearStage(s: string, year: nat)
    requires year < 10000 && 5 <= |s| && s[..4] == Fixed(year, 4) && s[4] == '-'
    ensures ParseTimestamp(s) == ParseMonth(s, year)
  {
    FixedValue(year, 4);
    ShortDigitsValue(Fixed(year, 4));
    assert YearValue(s, 0) == YearValue(s[..4], 0);
  }

  /** The month field and its '-'. */
  lemma MonthStage(s: string, year: int, mo: string)
    requires 8 <= |s| && s[5..7] == mo && s[7] == '-'
    requires |mo| == 2 && AllDigits(mo)
    ensures ParseMonth(s, year) == ParseDay(s, year, DigitsValue(mo), 8)
  {
    ShortNumberOf(s, 5, mo);
  }

  /** The day field and the whitespace after it. */
  lemma DayStage(s: string, year: int, month: int, dd: string)
    requires 11 < |s| && s[8..10] == dd && IsSpace(s[10]) && !IsSpace(s[11])
    requires |dd| == 2 && AllDigits(dd)
    ensures ParseDay(s, year, month, 8) == ParseHour(s, Date(year, month, DigitsValue(dd)), 11)
  {
    assert s[8] == dd[0];
    ShortNumberOf(s, 8, dd);
    assert SpaceRunEnd(s, 11) == 11;
  }

  /**
   A text that starts with `str(date)` and one whitespace character (the
   format's space matches any `\s`) reads that date, then its clock from
   index 11.
   */
  lemma ParseDatePart(s: string, d: Date)
    requires ValidDate(d)
    requires 11 < |s| && s[..10] == DateText(d) && IsSpace(s[10]) && !IsSpace(s[11])
    ensures ParseTimestamp(s) == ParseHour(s, d, 11)
  {
    var y, mo, dd := Fixed(d.year, 4), Fixed(d.month, 2), Fixed(d.day, 2);
    DateLayout(s, y, mo, dd);
    FixedValue(d.month, 2);
    FixedValue(d.day, 2);
    YearStage(s, d.year);
    MonthStage(s, d.year, mo);
    DayStage(s, d.year, d.month, dd);
  }

  /** A field followed by ':' reads as its value, and the parse resumes after the ':'. */
  lemma FieldThenColon(s: string, i: nat, a: string)
    requires i + |a| < |s| && s[i..i + |a| + 1] == a + ":"
    requires 1 <= |a| <= 2 && AllDigits(a)
    ensures s[i + |a|] == ':'
    ensures ShortNumber(s, i) == Some((DigitsValue(a), i + |a|))
  {
    assert s[i + |a|] == (a + ":")[|a|];
    assert s[i..i + |a|] == (a + ":")[..|a|];
    ShortNumberOf(s, i, a);
  }

  /** The hour field and its ':'. */
  lemma HourStage(s: string, d: Date, i: nat, h: string)
    requires i + |h| < |s| && s[i..i + |h| + 1] == h + ":"
    requires 1 <= |h| <= 2 && AllDigits(h)
    ensures ParseHour(s, d, i) == ParseMinute(s, d, DigitsValue(h), i + |h| + 1)
  {
    FieldThenColon(s, i, h);
  }

  /** The minute field and its ':'. */
  lemma MinuteStage(s: string, d: Date, hour: int, i: nat, m: string)
    requires i + |m| < |s| && s[i..i + |m| + 1] == m + ":"
    requires 1 <= |m| <= 2 && AllDigits(m)
    ensures ParseMinute(s, d, hour, i) == ParseSecond(s, d, hour, DigitsValue(m), i + |m| + 1)
  {
    FieldThenColon(s, i, m);
  }

  /** The last field must end the text: then the parse yields the datetime, when it is a real one. */
  lemma SecondStage(s: string, d: Date, hour: int, minute: int, i: nat, sec: string)
    requires i <= |s| && s[i..] == sec
    requires 1 <= |sec| <= 2 && AllDigits(sec)
    ensures ParseSecond(s, d, hour, minute, i)
      == (var t := DateTime(d, hour, minute, DigitsValue(sec)); if ValidDateTime(t) then Some(t) else None)
  {
    ShortNumberOf(s, i, sec);
  }

  /** Anything after the last field makes the parse fail, unless it lengthens a one-digit field. */
  lemma SecondStageThenMore(s: string, d: Date, hour: int, minute: int, i: nat, sec: string)
    requires i + |sec| < |s| && s[i..i + |sec|] == sec
    requires 1 <= |sec| <= 2 && AllDigits(sec)
    requires |sec| == 2 || !IsDigit(s[i + |sec|])
    ensures ParseSecond(s, d, hour, minute, i) == None
  {
    if !IsDigit(s[i + |sec|]) {
      ShortNumberOf(s, i, sec);
    } else {
      assert sec[0] == s[i];
      assert sec[1] == s[i + 1];
    }
  }

  /** `str(date)`, a space, and three ':'-separated fields, as `format_cleaning_date` and `str(datetime)` write them. */
  function StampText(d: Date, h: string, m: string, sec: string): string
    requires ValidDate(d)
  {
    DateText(d) + " " + h + ":" + m + ":" + sec
  }

  /** The pieces of a `StampText` lie where the parse looks for them. */
  lemma StampLayout(d: Date, h: string, m: string, sec: string, x: string)
    requires ValidDate(d) && 1 <= |h|
    ensures var s := StampText(d, h, m, sec) + x;
      var i := 12 + |h|;
      var j := i + |m| + 1;
      11 < |s| && s[..10] == DateText(d) && s[10] == ' ' && s[11] == h[0]
      && s[11..i] == h + ":" && s[i..j] == m + ":" && j + |sec| <= |s| && s[j..j + |sec|] == sec
      && s[j + |sec|..] == x
  {
    var s := StampText(d, h, m, sec) + x;
    assert s == (DateText(d) + " ") + (h + ":") + (m + ":") + sec + x;
  }

  /**
   A date in the form `str(date)` gives, followed by a space and one- or
   two-digit hour, minute and second fields, parses to exactly that date and
   time of day.
   */
  lemma ParseFields(d: Date, h: string, m: string, sec: string)
    requires ValidDate(d)
    requires ShortField(h, 24) && ShortField(m, 60) && ShortField(sec, 60)
    ensures ParseTimestamp(StampText(d, h, m, sec)) == Some(DateTime(d, DigitsValue(h), DigitsValue(m), DigitsValue(sec)))
  {
    var s := StampText(d, h, m, sec);
    var i := 12 + |h|;
    var j := i + |m| + 1;
    StampLayout(d, h, m, sec, []);
    assert s + [] == s;
    assert !IsSpace(s[11]);
    ParseDatePart(s, d);
    HourStage(s, d, 11, h);
    MinuteStage(s, d, DigitsValue(h), i, m);
    SecondStage(s, d, DigitsValue(h), DigitsValue(m), j, sec);
  }

  /**
   `strptime` must consume the whole text: anything after the seconds field
   (a '.' and microseconds, in particular) makes it fail. This is why the
   source cuts timestamps at their first '.' before parsing.
   */
  lemma TrailingTextRejected(d: Date, h: string, m: string, sec: string, x: string)
    requires ValidDate(d)
    requires ShortField(h, 24) && ShortField(m, 60) && ShortField(sec, 60)
    requires x != [] && (|sec| == 2 || !IsDigit(x[0]))
    ensures ParseTimestamp(StampText(d, h, m, sec) + x) == None
  {
    var s := StampText(d, h, m, sec) + x;
    var i := 12 + |h|;
    var j := i + |m| + 1;
    StampLayout(d, h, m, sec, x);
    assert !IsSpace(s[11]);
    ParseDatePart(s, d);
    HourStage(s, d, 11, h);
    MinuteStage(s, d, DigitsValue(h), i, m);
    SecondStageThenMore(s, d, DigitsValue(h), DigitsValue(m), j, sec);
  }

  /** Zero-padded two-digit fields are short fields. */
  lemma FixedField(n: nat, bound: int)
    requires n < bound <= 100
    ensures ShortField(Fixed(n, 2), bound) && DigitsValue(Fixed(n, 2)) == n
  {
    FixedValue(n, 2);
  }

  /** `strptime` reads back what `str(datetime)` writes. */
  lemma ParseRendered(t: DateTime)
    requires ValidDateTime(t)
    ensures ParseTimestamp(DateTimeText(t)) == Some(t)
  {
    FixedField(t.hour, 24);
    FixedField(t.minute, 60);
    FixedField(t.second, 60);
    ParseFields(t.date, Fixed(t.hour, 2), Fixed(t.minute, 2), Fixed(t.second, 2));
    assert DateTimeText(t) == StampText(t.date, Fixed(t.hour, 2), Fixed(t.minute, 2), Fixed(t.second, 2));
  }

  /** Cutting `str(datetime.now())` at its first '.' leaves the text without microseconds. */
  lemma NowTextCut(t: DateTime, micro: nat)
    requires ValidDateTime(t) && micro < 1000000
    ensures BeforeFirstDot(NowText(t, micro)) == DateTimeText(t)
  {
    var s := DateTimeText(t);
    assert forall k :: 0 <= k < |s| ==> s[k] != '.' by {
      var y, mo, dd := Fixed(t.date.year, 4), Fixed(t.date.month, 2), Fixed(t.date.day, 2);
      var hh, mi, ss := Fixed(t.hour, 2), Fixed(t.minute, 2), Fixed(t.second, 2);
      assert s == y + "-" + mo + "-" + dd + " " + hh + ":" + mi + ":" + ss;
    }
    BeforeFirstDotOfPrefix(s, NowText(t, micro)[|s|..]);
  }

  /** A reading of `str(datetime.now())`, cut at its first '.', parses back to the instant it shows. */
  lemma NowTextParses(t: DateTime, micro: nat)
    requires ValidDateTime(t) && micro < 1000000
    ensures NowText(t, micro) != ""
    ensures ParseTimestamp(BeforeFirstDot(NowText(t, micro))) == Some(t)
  {
    NowTextCut(t, micro);
    ParseRendered(t);
  }

  /** The cut stops at the first '.' after a prefix that has none. */
  lemma {:induction false} BeforeFirstDotOfPrefix(a: string, b: string)
    requires forall k :: 0 <= k < |a| ==> a[k] != '.'
    requires b == [] || b[0] == '.'
    ensures BeforeFirstDot(a + b) == a
  {
    if a != [] {
      assert (a + b)[1..] == a[1..] + b;
      BeforeFirstDotOfPrefix(a[1..], b);
    }
  }

  // ---------------------------------------------------------------------
  // get_datetime_passed_seconds
  // ---------------------------------------------------------------------

  /**
   `get_datetime_passed_seconds(time_stamp, time_now=timeNow, reverse=reverse)`
   with the default format. `clock` stands for `datetime.now()`, which is used
   when `timeNow` is missing or empty (falsy). Both texts are cut at their
   first '.' and then compared by `Elapsed`.
   */
  function PassedSeconds(timeStamp: string, timeNow: Option<string>, clock: string, reverse: bool): Option<int> {
    Elapsed(BeforeFirstDot(timeStamp), BeforeFirstDot(EffectiveNow(timeNow, clock)), reverse)
  }

  /** `time_now if time_now else datetime.now()`. */
  function EffectiveNow(timeNow: Option<string>, clock: string): (r: string)
    ensures timeNow.Some? && timeNow.value != "" ==> r == timeNow.value
    ensures timeNow.None? || timeNow.value == "" ==> r == clock
  {
    if timeNow.None? || timeNow.value == "" then clock else timeNow.value
  }

  /**
   Both texts parsed and subtracted, as `int(delta.total_seconds())`: now
   minus stamp, or stamp minus now when `reverse`. `None` where `strptime`
   raises on either text.
   */
  function Elapsed(stampText: string, nowText: string, reverse: bool): (r: Option<int>)
    ensures r.Some? <==> ParseTimestamp(stampText).Some? && ParseTimestamp(nowText).Some?
  {
    match (ParseTimestamp(nowText), ParseTimestamp(stampText))
    case (Some(now), Some(stamp)) =>
      Some(if reverse then EpochSeconds(stamp) - EpochSeconds(now) else EpochSeconds(now) - EpochSeconds(stamp))
    case _ => None
  }

  /** Reversing the subtraction negates the result. */
  lemma ReverseNegates(timeStamp: string, timeNow: Option<string>, clock: string)
    ensures PassedSeconds(timeStamp, timeNow, clock, true).Some? <==> PassedSeconds(timeStamp, timeNow, clock, false).Some?
    ensures PassedSeconds(timeStamp, timeNow, clock, true).Some? ==>
      PassedSeconds(timeStamp, timeNow, clock, true).value == -PassedSeconds(timeStamp, timeNow, clock, false).value
  {
  }

  /** A timestamp is zero seconds away from itself, whenever it parses. */
  lemma SameInstantIsZero(timeStamp: string, clock: string, reverse: bool)
    requires timeStamp != ""
    requires ParseTimestamp(BeforeFirstDot(timeStamp)).Some?
    ensures PassedSeconds(timeStamp, Some(timeStamp), clock, reverse) == Some(0)
  {
  }

  /** Without `time_now` (or with an empty one) the clock's reading is used. */
  lemma MissingNowUsesClock(timeStamp: string, clock: string, reverse: bool)
    ensures PassedSeconds(timeStamp, None, clock, reverse) == PassedSeconds(timeStamp, Some(clock), clock, reverse)
    ensures PassedSeconds(timeStamp, Some(""), clock, reverse) == PassedSeconds(timeStamp, Some(clock), clock, reverse)
  {
  }

  /** A non-empty `time_now` is used as given: the clock's reading then has no influence on the result. */
  lemma GivenNowIgnoresClock(timeStamp: string, timeNow: string, clock1: string, clock2: string, reverse: bool)
    requires timeNow != ""
    ensures PassedSeconds(timeStamp, Some(timeNow), clock1, reverse) == PassedSeconds(timeStamp, Some(timeNow), clock2, reverse)
    ensures PassedSeconds(timeStamp, Some(timeNow), clock1, reverse) == Elapsed(BeforeFirstDot(timeStamp), BeforeFirstDot(timeNow), reverse)
  {
  }

  /** Anything after a '.' in either timestamp is dropped before the comparison. */
  lemma FractionIgnored(timeStamp: string, now: string, clock: string, reverse: bool, f1: string, f2: string)
    requires '.' !in timeStamp && '.' !in now && now != ""
    ensures PassedSeconds(timeStamp + "." + f1, Some(now + "." + f2), clock, reverse)
      == Elapsed(timeStamp, now, reverse)
  {
    CutAtDot(timeStamp, f1);
    CutAtDot(now, f2);
  }

  lemma CutAtDot(a: string, f: string)
    requires '.' !in a
    ensures BeforeFirstDot(a + "." + f) == a && BeforeFirstDot(a) == a
  {
    BeforeFirstDotOfPrefix(a, "." + f);
    BeforeFirstDotOfPrefix(a, []);
    assert a + [] == a;
    assert a + "." + f == a + ("." + f);
  }

  /** Between texts in the form `str(datetime)` writes, the result counts the seconds from the stamp to now. */
  lemma ElapsedRendered(stamp: DateTime, now: DateTime, reverse: bool)
    requires ValidDateTime(stamp) && ValidDateTime(now)
    ensures Elapsed(DateTimeText(stamp), DateTimeText(now), reverse)
      == Some(if reverse then EpochSeconds(stamp) - EpochSeconds(now) else EpochSeconds(now) - EpochSeconds(stamp))
  {
    ParseRendered(stamp);
    ParseRendered(now);
    ElapsedOf(DateTimeText(stamp), DateTimeText(now), stamp, now, reverse);
  }

  /** `PassedSeconds` of two texts whose parts before the first '.' parse. */
  lemma PassedOf(stampText: string, nowText: string, stamp: DateTime, now: DateTime, clock: string, reverse: bool)
    requires nowText != ""
    requires ParseTimestamp(BeforeFirstDot(stampText)) == Some(stamp)
    requires ParseTimestamp(BeforeFirstDot(nowText)) == Some(now)
    ensures ValidDateTime(stamp) && ValidDateTime(now)
    ensures PassedSeconds(stampText, Some(nowText), clock, reverse)
      == Some(if reverse then EpochSeconds(stamp) - EpochSeconds(now) else EpochSeconds(now) - EpochSeconds(stamp))
  {
    ElapsedOf(BeforeFirstDot(stampText), BeforeFirstDot(nowText), stamp, now, reverse);
  }

  /** A stamp has nothing for the cut at '.' to remove, so it parses as it stands. */
  lemma ParseCutStamp(d: Date, h: string, m: string, sec: string)
    requires ValidDate(d)
    requires ShortField(h, 24) && ShortField(m, 60) && ShortField(sec, 60)
    ensures ParseTimestamp(BeforeFirstDot(StampText(d, h, m, sec)))
      == Some(DateTime(d, DigitsValue(h), DigitsValue(m), DigitsValue(sec)))
  {
    StampHasNoDot(d, h, m, sec);
    CutAtDot(StampText(d, h, m, sec), "");
    ParseFields(d, h, m, sec);
  }

  /** A stamp built from digit fields has no '.'. */
  lemma StampHasNoDot(d: Date, h: string, m: string, sec: string)
    requires ValidDate(d) && AllDigits(h) && AllDigits(m) && AllDigits(sec)
    ensures '.' !in StampText(d, h, m, sec)
  {
    var s := StampText(d, h, m, sec);
    assert s == Fixed(d.year, 4) + "-" + Fixed(d.month, 2) + "-" + Fixed(d.day, 2) + " " + h + ":" + m + ":" + sec;
    assert forall k :: 0 <= k < |s| ==> IsDigit(s[k]) || s[k] in "- :";
  }

  lemma ElapsedOf(stampText: string, nowText: string, stamp: DateTime, now: DateTime, reverse: bool)
    requires ParseTimestamp(stampText) == Some(stamp) && ParseTimestamp(nowText) == Some(now)
    ensures ValidDateTime(stamp) && ValidDateTime(now)
    ensures Elapsed(stampText, nowText, reverse)
      == Some(if reverse then EpochSeconds(stamp) - EpochSeconds(now) else EpochSeconds(now) - EpochSeconds(stamp))
  {
    assert ParseTimestamp(nowText).value == now;
    assert ParseTimestamp(stampText).value == stamp;
  }

  /**
   For a stamp `str(datetime)` wrote and a reading of `datetime.now()`, the
   result is the signed number of seconds from the stamp to now: positive
   exactly when now is later, zero exactly when they are the same instant.
   */
  lemma PassedBetweenRendered(stamp: DateTime, now: DateTime, micro: nat, clock: string)
    requires ValidDateTime(stamp) && ValidDateTime(now) && micro < 1000000
    ensures PassedSeconds(DateTimeText(stamp), Some(NowText(now, micro)), clock, false)
      == Some(EpochSeconds(now) - EpochSeconds(stamp))
    ensures PassedSeconds(DateTimeText(stamp), Some(NowText(now, micro)), clock, false).value > 0 <==> Before(stamp, now)
    ensures PassedSeconds(DateTimeText(stamp), Some(NowText(now, micro)), clock, false).value == 0 <==> stamp == now
  {
    NowTextCut(now, micro);
    NowTextCut(stamp, 0);
    assert NowText(stamp, 0) == DateTimeText(stamp);
    assert NowText(now, micro) != "";
    ElapsedRendered(stamp, now, false);
    ChronologicalOrder(stamp, now);
  }

  /** The pieces of a date, one separator and three fields lie where the parse looks for them. */
  lemma SpacedLayout(date: string, c: char, h: string, m: string, sec: string)
    requires |date| == 10 && 1 <= |h|
    ensures var s := date + [c] + h + ":" + m + ":" + sec;
      var i := 12 + |h|;
      var j := i + |m| + 1;
      11 < |s| && s[..10] == date && s[10] == c && s[11] == h[0]
      && s[11..i] == h + ":" && s[i..j] == m + ":" && s[j..] == sec
  {
    var s := date + [c] + h + ":" + m + ":" + sec;
    assert s == (date + [c]) + (h + ":") + (m + ":") + sec;
  }

  /**
   The format's space becomes `\s+`, so any one whitespace character between
   the date and the clock fields (a tab, a unit separator U+001F, a no-break
   space U+00A0) is accepted like a space.
   */
  lemma ParseAnySeparator(d: Date, c: char, h: string, m: string, sec: string)
    requires ValidDate(d) && IsSpace(c)
    requires ShortField(h, 24) && ShortField(m, 60) && ShortField(sec, 60)
    ensures ParseTimestamp(DateText(d) + [c] + h + ":" + m + ":" + sec)
      == Some(DateTime(d, DigitsValue(h), DigitsValue(m), DigitsValue(sec)))
  {
    var s := DateText(d) + [c] + h + ":" + m + ":" + sec;
    SpacedLayout(DateText(d), c, h, m, sec);
    ParseDatePart(s, d);
    ParseClock(s, d, h, m, sec);
  }

  /** The hour, minute and second fields from index 11 to the end read as a valid time of day on `d`. */
  lemma ParseClock(s: string, d: Date, h: string, m: string, sec: string)
    requires ValidDate(d)
    requires ShortField(h, 24) && ShortField(m, 60) && ShortField(sec, 60)
    requires 12 + |h| + |m| + 1 <= |s|
    requires s[11..12 + |h|] == h + ":" && s[12 + |h|..12 + |h| + |m| + 1] == m + ":" && s[12 + |h| + |m| + 1..] == sec
    ensures ParseHour(s, d, 11) == Some(DateTime(d, DigitsValue(h), DigitsValue(m), DigitsValue(sec)))
  {
    var i := 12 + |h|;
    var j := i + |m| + 1;
    HourStage(s, d, 11, h);
    MinuteStage(s, d, DigitsValue(h), i, m);
    SecondStage(s, d, DigitsValue(h), DigitsValue(m), j, sec);
  }
}
