/**
 `slice_sheet_dates`: a free-text Russian schedule such as "5/2 Будние дни, в 11:00"
 becomes a list of weekday indices (0 = Monday .. 6 = Sunday) and the first
 `\d+:\d+` time phrase in the text.
 */
module Schedule {
  import opened Options
  import opened Text

  /** What a keyword contributes: `range(lo, hi)` (added with `+=`) or a single index (added with `append`). */
  datatype DaySpec = Span(lo: int, hi: int) | Single(day: int)

  datatype Keyword = Keyword(word: string, spec: DaySpec)

  /** The pair `(days, sheet_time)` returned by `slice_sheet_dates`. */
  datatype SheetDates = SheetDates(days: seq<int>, time: string)

  /** The keyword table `sheet_days`, in its insertion (= iteration) order. */
  const SheetDays: seq<Keyword> := [
    Keyword("ежедневно", Span(0, 7)),
    Keyword("будние", Span(0, 5)),
    Keyword("понедельник", Single(0)),
    Keyword("вторник", Single(1)),
    Keyword("среда", Single(2)),
    Keyword("четверг", Single(3)),
    Keyword("пятница", Single(4)),
    Keyword("суббота", Single(5)),
    Keyword("воскресенье", Single(6))
  ]

  /** Python's `list(range(lo, hi))`. */
  function Range(lo: int, hi: int): (r: seq<int>)
    ensures |r| == if lo <= hi then hi - lo else 0
    ensures forall k :: 0 <= k < |r| ==> r[k] == lo + k
    decreases hi - lo
  {
    if lo < hi then [lo] + Range(lo + 1, hi) else []
  }

  /** The indices one keyword adds to the day list. */
  function Contribution(spec: DaySpec): seq<int> {
    match spec
    case Span(lo, hi) => Range(lo, hi)
    case Single(d) => [d]
  }

  /**
   The loop over the keyword table from entry `k` on: every keyword found in
   `lowered` appends its indices, in table order.
   */
  function CollectFrom(table: seq<Keyword>, lowered: string, k: nat): seq<int>
    requires k <= |table|
    decreases |table| - k
  {
    if k == |table| then []
    else
      var rest := CollectFrom(table, lowered, k + 1);
      if Contains(lowered, table[k].word) then Contribution(table[k].spec) + rest else rest
  }

  /** The day list `slice_sheet_dates` builds for `text` (matching is done on `text.lower()`). */
  function SheetDayList(text: string): seq<int> {
    CollectFrom(SheetDays, Lower(text), 0)
  }

  /** Keyword `k` of the table occurs in the lower-cased text. */
  predicate KeywordIn(text: string, k: nat)
    requires k < |SheetDays|
  {
    Contains(Lower(text), SheetDays[k].word)
  }

  /** An index is in the collected list exactly when some matching keyword at or after `k` contributes it. */
  lemma {:induction false} CollectMembers(table: seq<Keyword>, lowered: string, k: nat, d: int)
    requires k <= |table|
    ensures d in CollectFrom(table, lowered, k) <==>
      exists m :: k <= m < |table| && Contains(lowered, table[m].word) && d in Contribution(table[m].spec)
    decreases |table| - k
  {
    if k < |table| {
      CollectMembers(table, lowered, k + 1, d);
      var here := Contains(lowered, table[k].word) && d in Contribution(table[k].spec);
      if here {
        assert k <= k < |table| && Contains(lowered, table[k].word) && d in Contribution(table[k].spec);
      }
      if exists m :: k <= m < |table| && Contains(lowered, table[m].word) && d in Contribution(table[m].spec) {
        var m :| k <= m < |table| && Contains(lowered, table[m].word) && d in Contribution(table[m].spec);
        if m != k {
          assert k + 1 <= m;
        }
      }
    }
  }

  /** The collected list is empty exactly when no keyword at or after `k` matches (every contribution is non-empty). */
  lemma {:induction false} CollectEmpty(table: seq<Keyword>, lowered: string, k: nat)
    requires k <= |table|
    requires forall m :: 0 <= m < |table| ==> Contribution(table[m].spec) != []
    ensures CollectFrom(table, lowered, k) == [] <==>
      forall m :: k <= m < |table| ==> !Contains(lowered, table[m].word)
    decreases |table| - k
  {
    if k < |table| {
      CollectEmpty(table, lowered, k + 1);
    }
  }

  /** Every index any keyword of the table contributes is a weekday index 0..6. */
  lemma SheetDaysInWeek(m: nat, d: int)
    requires m < |SheetDays|
    requires d in Contribution(SheetDays[m].spec)
    ensures 0 <= d <= 6
  {
  }

  /** Every entry of the day list is a weekday index 0..6. */
  lemma DaysInWeek(text: string)
    ensures forall i :: 0 <= i < |SheetDayList(text)| ==> 0 <= SheetDayList(text)[i] <= 6
  {
    var days := SheetDayList(text);
    forall i | 0 <= i < |days|
      ensures 0 <= days[i] <= 6
    {
      CollectMembers(SheetDays, Lower(text), 0, days[i]);
      var m :| 0 <= m < |SheetDays| && Contains(Lower(text), SheetDays[m].word)
        && days[i] in Contribution(SheetDays[m].spec);
      SheetDaysInWeek(m, days[i]);
    }
  }

  /** An index is in the day list exactly when a keyword found in the text contributes it. */
  lemma DayListMembers(text: string, d: int)
    ensures d in SheetDayList(text) <==>
      exists m :: 0 <= m < |SheetDays| && KeywordIn(text, m) && d in Contribution(SheetDays[m].spec)
  {
    CollectMembers(SheetDays, Lower(text), 0, d);
  }

  /** The day list is empty, without any error, exactly when no keyword occurs in the text. */
  lemma DayListEmpty(text: string)
    ensures SheetDayList(text) == [] <==> forall m :: 0 <= m < |SheetDays| ==> !KeywordIn(text, m)
  {
    CollectEmpty(SheetDays, Lower(text), 0);
    assert forall m :: 0 <= m < |SheetDays| ==> (KeywordIn(text, m) <==> Contains(Lower(text), SheetDays[m].word));
  }

  /** "ежедневно" anywhere in the text, in any case, puts every weekday in the list. */
  lemma DailyMeansEveryDay(text: string)
    requires KeywordIn(text, 0)
    ensures forall d :: 0 <= d <= 6 ==> d in SheetDayList(text)
  {
    forall d | 0 <= d <= 6
      ensures d in SheetDayList(text)
    {
      DayListMembers(text, d);
      assert d == Contribution(SheetDays[0].spec)[d];
    }
  }

  /** "ежедневно" with no other keyword gives exactly the seven days, Monday first. */
  lemma DailyOnly(text: string)
    requires KeywordIn(text, 0)
    requires forall m :: 1 <= m < |SheetDays| ==> !KeywordIn(text, m)
    ensures SheetDayList(text) == [0, 1, 2, 3, 4, 5, 6]
  {
    var lowered := Lower(text);
    assert forall m :: 1 <= m < |SheetDays| ==> !Contains(lowered, SheetDays[m].word) by {
      forall m | 1 <= m < |SheetDays|
        ensures !Contains(lowered, SheetDays[m].word)
      {
        assert !KeywordIn(text, m);
      }
    }
    CollectEmpty(SheetDays, lowered, 1);
    assert CollectFrom(SheetDays, lowered, 0) == Range(0, 7);
  }

  /** "будние" with no other keyword gives exactly Monday to Friday. */
  lemma WorkdaysOnly(text: string)
    requires KeywordIn(text, 1)
    requires forall m :: 0 <= m < |SheetDays| && m != 1 ==> !KeywordIn(text, m)
    ensures SheetDayList(text) == [0, 1, 2, 3, 4]
  {
    var lowered := Lower(text);
    assert forall m :: 2 <= m < |SheetDays| ==> !Contains(lowered, SheetDays[m].word) by {
      forall m | 2 <= m < |SheetDays|
        ensures !Contains(lowered, SheetDays[m].word)
      {
        assert !KeywordIn(text, m);
      }
    }
    CollectEmpty(SheetDays, lowered, 2);
    assert !KeywordIn(text, 0);
    assert CollectFrom(SheetDays, lowered, 1) == Range(0, 5);
  }

  /**
   Without "ежедневно" and "будние", the single-day keywords add their index in
   table order, each at most once: the list is strictly increasing, whatever
   order the days are named in.
   */
  lemma {:induction false} SingleDaysAscend(lowered: string, k: nat)
    requires 2 <= k <= |SheetDays|
    ensures forall i :: 0 <= i < |CollectFrom(SheetDays, lowered, k)| ==> k - 2 <= CollectFrom(SheetDays, lowered, k)[i]
    ensures forall i, j :: 0 <= i < j < |CollectFrom(SheetDays, lowered, k)| ==>
      CollectFrom(SheetDays, lowered, k)[i] < CollectFrom(SheetDays, lowered, k)[j]
    decreases |SheetDays| - k
  {
    if k < |SheetDays| {
      SingleDaysAscend(lowered, k + 1);
      assert SheetDays[k].spec == Single(k - 2);
    }
  }

  /** The day list for a text naming only individual weekdays is strictly increasing. */
  lemma NamedDaysInTableOrder(text: string)
    requires !KeywordIn(text, 0) && !KeywordIn(text, 1)
    ensures forall i, j :: 0 <= i < j < |SheetDayList(text)| ==> SheetDayList(text)[i] < SheetDayList(text)[j]
  {
    SingleDaysAscend(Lower(text), 2);
  }

  // ---------------------------------------------------------------------
  // The time phrase: the leftmost match of the regular expression \d+:\d+
  // ---------------------------------------------------------------------

  /** `t` is in the language of `\d+:\d+`. */
  ghost predicate IsTimeText(t: string) {
    exists k :: 0 < k < |t| - 1 && AllDigits(t[..k]) && t[k] == ':' && AllDigits(t[k + 1..])
  }

  /** `s[i..j]` is a match of `\d+:\d+`. */
  ghost predicate MatchAt(s: string, i: int, j: int) {
    0 <= i <= j <= |s| && IsTimeText(s[i..j])
  }

  /**
   `s[i..j]` is the match `re.search` reports: it starts leftmost, and among the
   matches starting there it is the longest (both `\d+` are greedy, and nothing
   follows the second one).
   */
  ghost predicate Leftmost(s: string, i: int, j: int) {
    MatchAt(s, i, j) && forall i', j' :: MatchAt(s, i', j') ==> i < i' || (i == i' && j' <= j)
  }

  lemma LeftmostUnique(s: string, i: int, j: int, i': int, j': int)
    requires Leftmost(s, i, j) && Leftmost(s, i', j')
    ensures i == i' && j == j'
  {
  }

  /**
   Every match starts a run of digits, runs to its end, continues with ':' and
   a digit, and ends inside the run of digits after the ':'.
   */
  lemma MatchShape(s: string, i: int, j: int)
    requires MatchAt(s, i, j)
    ensures i < |s| && IsDigit(s[i])
    ensures DigitRunEnd(s, i) + 1 < j <= DigitRunEnd(s, DigitRunEnd(s, i) + 1)
    ensures s[DigitRunEnd(s, i)] == ':'
  {
    var m := MatchSplit(s, i, j);
    MatchShapeAt(s, i, m, j);
  }

  /** The position of the ':' of a match, as an offset from its start. */
  lemma MatchSplit(s: string, i: int, j: int) returns (m: nat)
    requires MatchAt(s, i, j)
    ensures 0 < m && i + m + 1 < j
    ensures forall q :: i <= q < i + m ==> IsDigit(s[q])
    ensures s[i + m] == ':'
    ensures forall q :: i + m + 1 <= q < j ==> IsDigit(s[q])
  {
    var t := s[i..j];
    m :| 0 < m < |t| - 1 && AllDigits(t[..m]) && t[m] == ':' && AllDigits(t[m + 1..]);
    forall q | i <= q < i + m
      ensures IsDigit(s[q])
    {
      assert s[q] == t[..m][q - i];
    }
    forall q | i + m + 1 <= q < j
      ensures IsDigit(s[q])
    {
      assert s[q] == t[m + 1..][q - i - m - 1];
    }
  }

  lemma MatchShapeAt(s: string, i: nat, m: nat, j: nat)
    requires 0 < m && i + m + 1 < j <= |s|
    requires forall q :: i <= q < i + m ==> IsDigit(s[q])
    requires s[i + m] == ':'
    requires forall q :: i + m + 1 <= q < j ==> IsDigit(s[q])
    ensures IsDigit(s[i])
    ensures DigitRunEnd(s, i) == i + m
    ensures i + m + 1 < j <= DigitRunEnd(s, i + m + 1)
  {
    DigitRunEndAt(s, i, i + m);
    DigitRunEndBeyond(s, i + m + 1, j);
  }

  /** A run of digits followed by ':' and a digit starts a match that runs to the end of the second run. */
  lemma MatchBuild(s: string, i: nat)
    requires i < |s| && IsDigit(s[i])
    requires DigitRunEnd(s, i) + 1 < |s| && s[DigitRunEnd(s, i)] == ':' && IsDigit(s[DigitRunEnd(s, i) + 1])
    ensures MatchAt(s, i, DigitRunEnd(s, DigitRunEnd(s, i) + 1))
  {
    var k := DigitRunEnd(s, i);
    var j := DigitRunEnd(s, k + 1);
    var t := s[i..j];
    assert t[..k - i] == s[i..k];
    assert t[k - i + 1..] == s[k + 1..j];
    assert 0 < k - i < |t| - 1 && AllDigits(t[..k - i]) && t[k - i] == ':' && AllDigits(t[k - i + 1..]);
  }

  /** No match starts at the end of the text or at a non-digit. */
  lemma NoMatchAt(s: string, i: nat)
    requires i == |s| || (i < |s| && !IsDigit(s[i]))
    ensures forall j :: !MatchAt(s, i, j)
  {
    forall j | MatchAt(s, i, j)
      ensures false
    {
      MatchShape(s, i, j);
    }
  }

  /** When the run of digits at `i` is not followed by ':' and a digit, no match starts anywhere in it. */
  lemma NoMatchInRun(s: string, i: nat)
    requires i < |s| && IsDigit(s[i])
    requires !(DigitRunEnd(s, i) + 1 < |s| && s[DigitRunEnd(s, i)] == ':' && IsDigit(s[DigitRunEnd(s, i) + 1]))
    ensures forall i', j :: i <= i' < DigitRunEnd(s, i) ==> !MatchAt(s, i', j)
  {
    forall i', j | i <= i' < DigitRunEnd(s, i)
      ensures !MatchAt(s, i', j)
    {
      DigitRunEndInside(s, i, i');
      if MatchAt(s, i', j) {
        MatchShape(s, i', j);
      }
    }
  }

  /** The search for the leftmost match from `i` on, given that none starts before `i`. */
  function TimeSearch(s: string, i: nat): (r: Option<(nat, nat)>)
    requires i <= |s|
    requires forall i', j :: MatchAt(s, i', j) ==> i <= i'
    ensures r.None? ==> forall i', j :: !MatchAt(s, i', j)
    ensures r.Some? ==> Leftmost(s, r.value.0, r.value.1)
    decreases |s| - i
  {
    if i == |s| then
      NoMatchAt(s, i);
      None
    else if !IsDigit(s[i]) then
      NoMatchAt(s, i);
      TimeSearch(s, i + 1)
    else
      var k := DigitRunEnd(s, i);
      if k + 1 < |s| && s[k] == ':' && IsDigit(s[k + 1]) then
        MatchBuild(s, i);
        FoundIsLeftmost(s, i);
        Some((i, DigitRunEnd(s, k + 1)))
      else
        NoMatchInRun(s, i);
        TimeSearch(s, k)
  }

  /** The first run of digits followed by ':' and a digit gives the leftmost match, taken maximally. */
  lemma FoundIsLeftmost(s: string, i: nat)
    requires i < |s| && IsDigit(s[i])
    requires DigitRunEnd(s, i) + 1 < |s| && s[DigitRunEnd(s, i)] == ':' && IsDigit(s[DigitRunEnd(s, i) + 1])
    requires forall i', j :: MatchAt(s, i', j) ==> i <= i'
    ensures Leftmost(s, i, DigitRunEnd(s, DigitRunEnd(s, i) + 1))
  {
    MatchBuild(s, i);
    forall j | MatchAt(s, i, j)
      ensures j <= DigitRunEnd(s, DigitRunEnd(s, i) + 1)
    {
      MatchShape(s, i, j);
    }
  }

  /** `re.search(r'\d+:\d+', s)`: the bounds of the leftmost match, or `None` when there is none. */
  function FirstTime(s: string): (r: Option<(nat, nat)>)
    ensures r.None? <==> forall i, j :: !MatchAt(s, i, j)
    ensures r.Some? ==> Leftmost(s, r.value.0, r.value.1)
  {
    TimeSearch(s, 0)
  }

  /**
   `slice_sheet_dates(date)`: the day list, and the leftmost time phrase of the
   text as written; `None` where the source raises because `re.search` found
   nothing (`None[0]`).
   */
  function SliceSheetDates(date: string): (r: Option<SheetDates>)
    ensures r.None? <==> forall i, j :: !MatchAt(date, i, j)
    ensures r.Some? ==> r.value.days == SheetDayList(date)
    ensures r.Some? ==> exists i, j :: Leftmost(date, i, j) && r.value.time == date[i..j]
  {
    var days := SheetDayList(date);
    match FirstTime(date)
    case None => None
    case Some((i, j)) => Some(SheetDates(days, date[i..j]))
  }

  lemma ColonNotBefore(s: string, i: nat, k: nat)
    requires i <= |s| && ':' !in s[..i]
    requires k < |s| && s[k] == ':'
    ensures i <= k
  {
  }

  /**
   The first run of digits that is followed by ':' and a digit, when no ':'
   comes before it, starts the time phrase `re.search` reports.
   */
  lemma FirstRunWithColon(s: string, i: nat)
    requires i < |s| && IsDigit(s[i]) && (i == 0 || !IsDigit(s[i - 1]))
    requires ':' !in s[..i]
    requires DigitRunEnd(s, i) + 1 < |s| && s[DigitRunEnd(s, i)] == ':' && IsDigit(s[DigitRunEnd(s, i) + 1])
    ensures FirstTime(s) == Some((i, DigitRunEnd(s, DigitRunEnd(s, i) + 1)))
  {
    forall i', j | MatchAt(s, i', j)
      ensures i <= i'
    {
      MatchShape(s, i', j);
      ColonNotBefore(s, i, DigitRunEnd(s, i'));
    }
    FoundIsLeftmost(s, i);
    var r := FirstTime(s);
    LeftmostUnique(s, i, DigitRunEnd(s, DigitRunEnd(s, i) + 1), r.value.0, r.value.1);
  }

  // ---------------------------------------------------------------------
  // Case-insensitivity
  // ---------------------------------------------------------------------

  /** A time phrase is unchanged by lowering, and lowering creates none. */
  lemma LowerTimeText(t: string)
    ensures IsTimeText(Lower(t)) <==> IsTimeText(t)
    ensures IsTimeText(t) ==> Lower(t) == t
  {
    if IsTimeText(t) {
      var m :| 0 < m < |t| - 1 && AllDigits(t[..m]) && t[m] == ':' && AllDigits(t[m + 1..]);
      forall q | 0 <= q < |t|
        ensures !IsUpper(t[q])
      {
        if q < m {
          assert IsDigit(t[..m][q]);
        } else if q > m {
          assert IsDigit(t[m + 1..][q - m - 1]);
        }
      }
      LowerFixesLowered(t);
    }
    if IsTimeText(Lower(t)) {
      var l := Lower(t);
      var m :| 0 < m < |l| - 1 && AllDigits(l[..m]) && l[m] == ':' && AllDigits(l[m + 1..]);
      forall q | 0 <= q < m
        ensures IsDigit(t[..m][q])
      {
        assert IsDigit(l[..m][q]);
      }
      forall q | m + 1 <= q < |t|
        ensures IsDigit(t[q])
      {
        assert IsDigit(l[m + 1..][q - m - 1]);
      }
      assert 0 < m < |t| - 1 && AllDigits(t[..m]) && t[m] == ':' && AllDigits(t[m + 1..]);
    }
  }

  /** Lowering the text keeps exactly the same time matches, with the same characters. */
  lemma LowerKeepsMatches(s: string, i: int, j: int)
    ensures MatchAt(Lower(s), i, j) <==> MatchAt(s, i, j)
    ensures MatchAt(s, i, j) ==> Lower(s)[i..j] == s[i..j]
  {
    if 0 <= i <= j <= |s| {
      assert Lower(s)[i..j] == Lower(s[i..j]);
      LowerTimeText(s[i..j]);
    }
  }

  /** `slice_sheet_dates` gives the same answer for a text and its lower-cased form. */
  lemma SliceCaseInsensitive(s: string)
    ensures SliceSheetDates(Lower(s)) == SliceSheetDates(s)
  {
    LowerIdempotent(s);
    forall i, j
      ensures MatchAt(Lower(s), i, j) <==> MatchAt(s, i, j)
    {
      LowerKeepsMatches(s, i, j);
    }
    var a, b := FirstTime(Lower(s)), FirstTime(s);
    if a.Some? && b.Some? {
      LeftmostUnique(s, a.value.0, a.value.1, b.value.0, b.value.1);
      LowerKeepsMatches(s, a.value.0, a.value.1);
    }
  }
}
