# cleaning_tg schedule core in Dafny

This project models the logic inside a Telegram bot that reminds people about
scheduled cleanings. A staff roster gives each person a free-text Russian
schedule such as "Ежедневно в 20:00" ("daily at 20:00") or
"5/2 Будние дни, в 11:00" ("5/2 weekdays, at 11:00"). The bot reduces the text
to weekday indices and a clock time, then decides whether a cleaning falls
today. If one does, it builds the timestamp text "<YYYY-MM-DD> <time as
written>:00" (a schedule at "9:30" gives "2024-01-01 9:30:00") and counts the
seconds between timestamps. Separately, `build_user` assembles a user record
from a roster entry and a Telegram account.

Modules, one per concern:

- `Options`: the `Option` type used for Python's exceptions and `None` results.
- `Text`:
  - `str.lower()` restricted to ASCII and Cyrillic;
  - the substring test `in`;
  - runs of ASCII digits;
  - zero-padded number rendering and reading.
- `Schedule`: `slice_sheet_dates`.
  - The keyword table `sheet_days` in its iteration order.
  - The day list, built with `+=` for ranges and `append` for single days.
  - The leftmost match of the regular expression `\d+:\d+`, characterised as a regular-language match that is leftmost and then longest.
- `ScheduleExamples`: the schedule strings of the repository's tests, worked through the model.
- `Calendar`: Python's proleptic Gregorian `date`, with `toordinal()` and `weekday()`.
- `Timestamps`:
  - `str(datetime)` as rendering;
  - `datetime.strptime(_, '%Y-%m-%d %H:%M:%S')` as parsing;
  - `get_datetime_passed_seconds`.
- `Occurrence`: `format_cleaning_date` and how its result feeds `get_datetime_passed_seconds`.
- `Users`: `UserRole`, `User` and `build_user`.

The clock is a parameter:
- `datetime.today()` becomes `today: Date`;
- `datetime.now()` becomes the text `clock`, or `now` for `build_user`.

Python exceptions become `None`:
- `re.search(...)` returning `None`, and then `None[0]`, raising `TypeError`;
- `strptime` raising `ValueError`;
- `UserRole(v)` raising `ValueError`.

`slice_sheet_dates` returns a list, not a set:
- The list is in keyword-table order, and it can hold a day twice, e.g. for "ежедневно … понедельник".
- It is empty, without any error, when no keyword occurs (`Schedule.DayListEmpty`).
- The function fails only when the text has no `\d+:\d+` time.

## Model

| member | source | states |
|---|---|---|
| Text.LowerChar | modules/utils.py:87 | Lowering changes exactly the upper-case letters. It never turns a letter into a digit, whitespace, ':', '-' or '.'. Its result is never upper case. |
| Text.LowerIdempotent | modules/utils.py:87 | Lowering an already lowered text changes nothing. |
| Text.LowerAppend | modules/utils.py:87 | Lowering distributes over concatenation. |
| Text.ContainsIff | modules/utils.py:87 | The substring test `day in date.lower()` holds exactly when the keyword occurs at some index. |
| Text.CharAbsent | modules/utils.py:87 | A keyword that has a letter the text lacks is not in the text. |
| Text.DigitRunEnd | modules/utils.py:92 | The end of the run of `\d` characters from `i`: every character before it is a digit, and the character at it is not. |
| Text.DigitRunEndAt | modules/utils.py:92 | A run of digits that cannot be extended ends where `DigitRunEnd` says. |
| Text.FixedValue | modules/utils.py:102 | A number rendered zero-padded to a width it fits reads back as the same number. |
| Schedule.Range | modules/utils.py:75-76 | `range(lo, hi)` has `hi - lo` elements, namely lo, lo+1, … in order. |
| Schedule.CollectMembers | modules/utils.py:85-91 | A weekday is in the list built from table entry `k` on exactly when a matching keyword at or after `k` contributes it. |
| Schedule.CollectEmpty | modules/utils.py:85-91 | The list built from table entry `k` on is empty exactly when no keyword at or after `k` occurs. |
| Schedule.DaysInWeek | modules/utils.py:74-91 | Every entry of the day list is a weekday index 0..6. |
| Schedule.DayListMembers | modules/utils.py:85-91 | An index is in the day list exactly when some keyword found in the lower-cased text contributes it. |
| Schedule.DayListEmpty | modules/utils.py:85-91 | The day list is empty, and no error is raised, exactly when no keyword occurs. |
| Schedule.DailyMeansEveryDay | modules/utils.py:75 | "ежедневно" anywhere in the text, in any letter case, puts all seven weekdays in the list. |
| Schedule.DailyOnly | modules/utils.py:75 | "ежедневно" with no other keyword gives exactly [0, 1, 2, 3, 4, 5, 6]. |
| Schedule.WorkdaysOnly | modules/utils.py:76 | "будние" with no other keyword gives exactly [0, 1, 2, 3, 4]. |
| Schedule.SingleDaysAscend | modules/utils.py:77-91 | From the single-day entries on, every collected index is at least its entry's day, and the indices strictly increase. |
| Schedule.NamedDaysInTableOrder | modules/utils.py:77-91 | A text naming only single weekdays gives a strictly increasing list, whatever order the text names them in. |
| Schedule.LeftmostUnique | modules/utils.py:92 | There is at most one leftmost-longest match of `\d+:\d+`. |
| Schedule.MatchShape | modules/utils.py:92 | Every `\d+:\d+` match starts with a digit. Its first run of digits ends at a ':'. The match ends inside the run of digits after that ':'. |
| Schedule.MatchBuild | modules/utils.py:92 | A digit run followed by ':' and a digit starts a match, and that match runs to the end of the second run. |
| Schedule.NoMatchInRun | modules/utils.py:92 | When a digit run is not followed by ':' and a digit, no match starts anywhere inside it. |
| Schedule.TimeSearch | modules/utils.py:92 | The scan from `i` returns `None` exactly when there is no match. Otherwise it returns the leftmost-longest match. |
| Schedule.FoundIsLeftmost | modules/utils.py:92 | The first digit run followed by ':' and a digit gives the leftmost match, taken maximally. |
| Schedule.FirstTime | modules/utils.py:92 | `re.search(r'\d+:\d+', date)` is `None` exactly when the text has no match. Otherwise it gives the bounds of the leftmost-longest one. |
| Schedule.FirstRunWithColon | modules/utils.py:92 | When no ':' comes earlier, the first digit run followed by ':' and a digit is where the reported match begins. |
| Schedule.SliceSheetDates | modules/utils.py:72-93 | The result fails exactly when the text has no time phrase. Otherwise it holds the keyword day list and the text of the leftmost match, taken from the text as written. |
| Schedule.LowerTimeText | modules/utils.py:87-92 | A time phrase is unchanged by lowering, and lowering creates none. |
| Schedule.LowerKeepsMatches | modules/utils.py:87-92 | The lowered text has exactly the same time matches as the original, with the same characters. |
| Schedule.SliceCaseInsensitive | modules/utils.py:72-93 | A text and its lowered form give the same result. |
| ScheduleExamples.DailyAt20 | modules/tests/test_utils.py:31-33 | "Ежедневно в 20:00" gives all seven days, Monday first, and "20:00". |
| ScheduleExamples.WorkdaysAt11 | modules/tests/test_utils.py:37-39 | "5/2 Будние дни, в 11:00" gives Monday to Friday and "11:00". The digit runs "5" and "2" are passed over. |
| ScheduleExamples.MondayThursday | modules/tests/test_utils.py:40-43 | "понедельник, четверг в 13:30" gives [0, 3] and "13:30". |
| ScheduleExamples.TwoPhrases | modules/tests/test_utils.py:26 | A text that names "ежедневно" twice gives the seven days once. Of its two times, only the first ("13:30") is kept. |
| Calendar.DaysBeforeNextYear | modules/utils.py:98-102 | Each year adds exactly its own length, 365 or 366 days, to the day count. |
| Calendar.DaysBeforeYearGrows | modules/utils.py:98-102 | The day count before a year grows by at least 365 a year. |
| Calendar.OrdinalInYear | modules/utils.py:98-102 | A valid date's day number lies within its own year's span. |
| Calendar.OrdinalOrder | modules/utils.py:98-102 | Day numbers follow calendar order, and equal day numbers mean equal dates. |
| Calendar.Weekday | modules/utils.py:100 | `weekday()` is always an index 0..6. |
| Calendar.NextDayOrdinal | modules/utils.py:98-102 | The next calendar day is a valid date, and its day number is one higher. |
| Calendar.NextDayWeekday | modules/utils.py:100 | The weekday advances by one each day, and Sunday wraps round to Monday. |
| Calendar.NewYear2024IsMonday | modules/utils.py:100 | 2024-01-01 has `weekday() == 0`. |
| Timestamps.ChronologicalOrder | modules/utils.py:65-69 | Second counts follow the order of calendar and clock, and distinct instants get distinct counts. |
| Timestamps.DateText | modules/utils.py:102 | `str(today.date())` is 10 characters long. |
| Timestamps.BeforeFirstDotMeaning | modules/utils.py:63-64 | `split('.')[0]` is a prefix without '.', and it ends at a '.' or at the end of the text. |
| Timestamps.BeforeFirstDotOfPrefix | modules/utils.py:63-64 | The cut stops at the first '.' after a prefix that has none. |
| Timestamps.CutAtDot | modules/utils.py:63-64 | The cut removes a '.' and all that follows it, and leaves a text without '.' unchanged. |
| Timestamps.SpaceRunEndMeaning | modules/utils.py:63-64 | The whitespace between date and time is skipped as one maximal run. |
| Timestamps.ShortNumberMeaning | modules/utils.py:63-64 | A 1–2 digit strptime field is read exactly when the digit run there has one or two digits. The field's value is the run's decimal value, and reading resumes at the end of the run. |
| Timestamps.ShortNumberOf | modules/utils.py:63-64 | A one- or two-digit field followed by a non-digit reads as its value. |
| Timestamps.ParseTimestamp | modules/utils.py:63-64 | Every successful `strptime` result is a real date and time: the year is 1..9999, the day exists in its month, the hour is below 24, and minutes and seconds are below 60. |
| Timestamps.ParseDatePart | modules/utils.py:63-64 | A text that begins with `str(date)` and one `\s` character reads as that date, and then its clock fields. |
| Timestamps.SecondStageThenMore | modules/utils.py:63-64 | Text left after the seconds field makes the parse fail, unless it lengthens a one-digit field. |
| Timestamps.ParseFields | modules/utils.py:63-64 | A date, a space and three 1–2 digit fields in range, separated by ':', parse to that instant. |
| Timestamps.ParseAnySeparator | modules/utils.py:63-64 | The format's space matches any one `\s` character, so a date, a tab, U+001F or U+00A0, and valid clock fields parse to that date and time just as with a space. |
| Timestamps.TrailingTextRejected | modules/utils.py:63-64 | Anything after such a stamp makes `strptime` fail. |
| Timestamps.FixedField | modules/utils.py:63-64 | A zero-padded two-digit field is a short field that reads back as its number. |
| Timestamps.ParseRendered | modules/utils.py:63-64 | `strptime` reads back exactly what `str(datetime)` writes. |
| Timestamps.NowTextCut | modules/utils.py:62-63 | Cutting `str(datetime.now())` at its first '.' drops exactly the microseconds. |
| Timestamps.NowTextParses | modules/utils.py:62-63 | A clock reading, rendered and cut, parses back to the instant it shows. |
| Timestamps.EffectiveNow | modules/utils.py:62 | A missing or empty `time_now` is replaced by the clock's reading, and a non-empty one is kept. |
| Timestamps.Elapsed | modules/utils.py:63-69 | There is a result exactly when both texts parse. |
| Timestamps.ReverseNegates | modules/utils.py:65-68 | `reverse=True` gives the negated result, and it fails exactly when `reverse=False` fails. |
| Timestamps.SameInstantIsZero | modules/utils.py:60-69 | A timestamp that parses is zero seconds from itself. |
| Timestamps.GivenNowIgnoresClock | modules/utils.py:62-63 | A non-empty `time_now` is the one compared: the result is the same whatever the clock reads. |
| Timestamps.MissingNowUsesClock | modules/utils.py:62 | Passing no `time_now`, or an empty one, is the same as passing the clock's reading. |
| Timestamps.FractionIgnored | modules/utils.py:63-64 | Anything after a '.' in either timestamp has no effect on the result. |
| Timestamps.ElapsedRendered | modules/utils.py:63-69 | Between two texts written by `str(datetime)`, the result is the difference of the two instants' second counts, with the sign that `reverse` chooses. |
| Timestamps.ElapsedOf | modules/utils.py:63-69 | Between two texts that parse, the result is the difference of the two instants' second counts, with the sign that `reverse` chooses. |
| Timestamps.PassedOf | modules/utils.py:60-69 | `get_datetime_passed_seconds` of two texts whose parts before the first '.' parse is the signed difference of their second counts. |
| Timestamps.ParseCutStamp | modules/utils.py:63-64 | A stamp built from digit fields has nothing for the cut to remove, so it parses as it stands. |
| Timestamps.PassedBetweenRendered | modules/utils.py:60-69 | Against a `str(datetime.now())` reading, a rendered stamp gives the seconds elapsed since it. The count is positive exactly when the stamp lies in the past, and zero exactly at that very second. |
| Occurrence.ScanDays | modules/utils.py:99-103 | The loop returns a timestamp exactly when today's weekday is in the list. What it returns is the stamp text. |
| Occurrence.FormatCleaningDate | modules/utils.py:96-103 | There is a result exactly when `today.weekday()` is one of the schedule's days. The result is then "<today's date> <time>:00", with the time as written. |
| Occurrence.JobAtParses | modules/utils.py:102 | The due timestamp reads back through `strptime` as today at the scheduled hour and minute, second 0. |
| Occurrence.JobAtCutParses | modules/utils.py:102 | The due timestamp has no fractional part to cut, so the cut-and-parse of `get_datetime_passed_seconds` reads it the same way. |
| Occurrence.SecondsUntilDue | modules/utils.py:60-69 | With `reverse=True` against any clock reading, the due timestamp gives the seconds still to wait. |
| Occurrence.EveryDayFires | modules/utils.py:99-103 | A schedule that lists every weekday produces a timestamp on every day. |
| Occurrence.DailyScheduleFiresEveryDay | modules/utils.py:75 | A schedule text with "ежедневно" and a time produces a timestamp on every day. |
| Occurrence.ConsecutiveDueTimes | modules/utils.py:102 | On two consecutive days that both fire, the due timestamps parse and lie exactly 86400 seconds apart. |
| Users.UserRole.Value | modules/users.py:6-8 | Each role has a non-empty display value. |
| Users.RoleOf | modules/users.py:6-8 | `UserRole(v)` succeeds exactly for the two display values, and then it gives the role with that value. |
| Users.RoleRoundTrip | modules/users.py:6-8 | Looking a role up by its own value gives that role back. |
| Users.RoleValuesDiffer | modules/users.py:7-8 | The two roles have different values, so a value identifies its role. |
| Users.BuildUser | modules/users.py:23-36 | `uid`, `username` and `first_name` come from the Telegram account. `full_name` and `phone_num` come from the roster entry. The role value reads back as USER. `created` and `updated` are both the single clock reading. |
| Users.BuiltUserIsNoManager | modules/users.py:32 | Whatever the inputs, a built user never holds the MANAGER value. |
| Users.BuildUserReadsOnly | modules/users.py:23-36 | Telegram fields such as `is_bot` and `language_code` do not affect the result, and neither do the roster's `adress` and `clean_time`. |
| Users.CreatedIsNow | modules/users.py:25-34 | Built from a clock reading's `str(datetime.now())`, `created` parses back to that instant, and `updated` is zero seconds from it. |
| Users.BuildUserExample | modules/tests/test_users.py:22-28 | The repository's test record builds the user the test expects. |

## Left out

- Configuration, JSON files, error logging and the spreadsheet connection are file and network I/O: `build_config`, `load_config`, `handle_error`, `load_json`, `update_json_file` and `gspread_connect_save_users`.
- `main.py` loads the configuration, sets up logging, creates the users table through a database module that is not part of this model, and starts `SenderBot`, whose code is not part of this model. `modules/bot.py` holds `TelegramBot`, whose constructor opens that database and whose `run` is empty. No chat handler or reminder delivery loop appears in either file, so none is modelled.
- `datetime.today()` and `datetime.now()` read the system clock. They become the parameters `today` and `clock`/`now`.
- Text.LowerChar: covers only ASCII and the Cyrillic block U+0400..U+042F, which includes Ё. Python's full Unicode `str.lower()` is not modelled. This does not change `day in date.lower()`: every `sheet_days` keyword is written in the letters а..я only, and no character outside the modelled upper-case ranges lowers into а..я. So in both versions each character either becomes the same а..я letter or becomes text with no а..я letter, and a keyword occurs in one lowered text exactly when it occurs in the other.
- Text.IsDigit: `\d` and the `strptime` digits are ASCII digits only. Python's regular expressions also accept other Unicode digits. `\s` (`Text.IsSpace`) is modelled in full: every character for which `str.isspace()` holds.
- Timestamps.ParseTimestamp: models only the default format `'%Y-%m-%d %H:%M:%S'`, the only one the repository uses. Other `date_fmt` values are not modelled.
- Timestamps.PassedSeconds: `time_now` is modelled as a text. In the source it may also be a `datetime`, which `str()` turns into exactly such a text.
- Timestamps.EpochSeconds: counts seconds from a fixed origin, with no time zone. Naive `datetime` subtraction does the same, and `total_seconds()` of whole-second differences is an integer, so `int()` truncates nothing.
- Timestamps.TrailingTextRejected: when the seconds field has one digit and the trailing text starts with a digit, the field simply lengthens. That case is excluded rather than stated.
- Users.BuildUser: takes the roster entry and the Telegram account as records. A missing dictionary key, which raises `KeyError` in the source, cannot arise.
- Users.User: the `role` field holds the display string that `build_user` stores. The field is annotated `UserRole`, but Python does not enforce the annotation.
