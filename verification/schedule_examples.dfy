/**
 The schedule strings of the repository's test suite for `slice_sheet_dates`,
 worked through the model. Each lemma takes the text as a parameter fixed by its
 `requires`, which keeps the verifier from unfolding the definitions on the
 literal character by character. Absent keywords are shown absent by naming a
 letter of the keyword that is not among the letters of the text.
 */
module ScheduleExamples {
  import opened Options
  import opened Text
  import opened Schedule

  // "Ежедневно в 20:00": all seven days, "20:00".

  lemma DailyAt20Letters(l: string)
    requires l == "ежедневно в 20:00"
    ensures forall k :: 0 <= k < |l| ==> l[k] in {'е', 'ж', 'д', 'н', 'в', 'о', ' ', '2', '0', ':'}
  {
  }

  lemma DailyAt20Keywords(l: string)
    requires l == "ежедневно в 20:00"
    ensures Contains(l, "ежедневно")
    ensures !Contains(l, "будние") && !Contains(l, "понедельник") && !Contains(l, "вторник") && !Contains(l, "среда")
    ensures !Contains(l, "четверг") && !Contains(l, "пятница") && !Contains(l, "суббота") && !Contains(l, "воскресенье")
  {
    ContainsIff(l, "ежедневно");
    assert OccursAt(l, "ежедневно", 0);
    DailyAt20Letters(l);
    var a := {'е', 'ж', 'д', 'н', 'в', 'о', ' ', '2', '0', ':'};
    CharAbsent(l, a, "будние", 0);
    CharAbsent(l, a, "понедельник", 0);
    CharAbsent(l, a, "вторник", 1);
    CharAbsent(l, a, "среда", 0);
    CharAbsent(l, a, "четверг", 0);
    CharAbsent(l, a, "пятница", 0);
    CharAbsent(l, a, "суббота", 0);
    CharAbsent(l, a, "воскресенье", 2);
  }

  lemma DailyAt20Lower(t: string)
    requires t == "Ежедневно в 20:00"
    ensures Lower(t) == "ежедневно в 20:00"
  {
  }

  lemma DailyAt20Days(t: string)
    requires t == "Ежедневно в 20:00"
    ensures SheetDayList(t) == [0, 1, 2, 3, 4, 5, 6]
  {
    DailyAt20Lower(t);
    DailyAt20Keywords(Lower(t));
    DailyByWords(t);
  }

  lemma DailyAt20Time(t: string)
    requires t == "Ежедневно в 20:00"
    ensures FirstTime(t) == Some((12, 17))
  {
    assert t[12] == '2' && t[13] == '0' && t[14] == ':' && t[15] == '0' && t[16] == '0';
    assert DigitRunEnd(t, 14) == 14;
    assert DigitRunEnd(t, 12) == 14;
    assert DigitRunEnd(t, 17) == 17;
    assert DigitRunEnd(t, 15) == 17;
    assert ':' !in t[..12];
    FirstRunWithColon(t, 12);
  }

  lemma DailyAt20(t: string)
    requires t == "Ежедневно в 20:00"
    ensures SliceSheetDates(t) == Some(SheetDates([0, 1, 2, 3, 4, 5, 6], "20:00"))
  {
    DailyAt20Days(t);
    DailyAt20Time(t);
    assert t[12..17] == "20:00";
  }

  // "5/2 Будние дни, в 11:00": Monday to Friday, "11:00".

  lemma WorkdaysAt11Letters(l: string)
    requires l == "5/2 будние дни, в 11:00"
    ensures forall k :: 0 <= k < |l| ==> l[k] in {'5', '/', '2', ' ', 'б', 'у', 'д', 'н', 'и', 'е', ',', 'в', '1', '0', ':'}
  {
  }

  lemma WorkdaysAt11Keywords(l: string)
    requires l == "5/2 будние дни, в 11:00"
    ensures Contains(l, "будние")
    ensures !Contains(l, "ежедневно") && !Contains(l, "понедельник") && !Contains(l, "вторник") && !Contains(l, "среда")
    ensures !Contains(l, "четверг") && !Contains(l, "пятница") && !Contains(l, "суббота") && !Contains(l, "воскресенье")
  {
    ContainsIff(l, "будние");
    assert OccursAt(l, "будние", 4);
    WorkdaysAt11Letters(l);
    var a := {'5', '/', '2', ' ', 'б', 'у', 'д', 'н', 'и', 'е', ',', 'в', '1', '0', ':'};
    CharAbsent(l, a, "ежедневно", 1);
    CharAbsent(l, a, "понедельник", 0);
    CharAbsent(l, a, "вторник", 1);
    CharAbsent(l, a, "среда", 0);
    CharAbsent(l, a, "четверг", 0);
    CharAbsent(l, a, "пятница", 0);
    CharAbsent(l, a, "суббота", 0);
    CharAbsent(l, a, "воскресенье", 2);
  }

  lemma WorkdaysAt11Lower(t: string)
    requires t == "5/2 Будние дни, в 11:00"
    ensures Lower(t) == "5/2 будние дни, в 11:00"
  {
  }

  lemma WorkdaysAt11Days(t: string)
    requires t == "5/2 Будние дни, в 11:00"
    ensures SheetDayList(t) == [0, 1, 2, 3, 4]
  {
    WorkdaysAt11Lower(t);
    WorkdaysAt11Keywords(Lower(t));
    WorkdaysByWords(t);
  }

  /** The digit runs "5" and "2" come first, but neither is followed by ':'. */
  lemma WorkdaysAt11Time(t: string)
    requires t == "5/2 Будние дни, в 11:00"
    ensures FirstTime(t) == Some((18, 23))
  {
    assert t[17] == ' ' && t[18] == '1' && t[19] == '1' && t[20] == ':' && t[21] == '0' && t[22] == '0';
    assert DigitRunEnd(t, 20) == 20;
    assert DigitRunEnd(t, 18) == 20;
    assert DigitRunEnd(t, 23) == 23;
    assert DigitRunEnd(t, 21) == 23;
    assert ':' !in t[..18];
    FirstRunWithColon(t, 18);
  }

  lemma WorkdaysAt11(t: string)
    requires t == "5/2 Будние дни, в 11:00"
    ensures SliceSheetDates(t) == Some(SheetDates([0, 1, 2, 3, 4], "11:00"))
  {
    WorkdaysAt11Days(t);
    WorkdaysAt11Time(t);
    assert t[18..23] == "11:00";
  }

  // "понедельник, четверг в 13:30": exactly [0, 3], in table order, "13:30".

  lemma MondayThursdayLetters(l: string)
    requires l == "понедельник, четверг в 13:30"
    ensures forall k :: 0 <= k < |l| ==>
      l[k] in {'п', 'о', 'н', 'е', 'д', 'л', 'ь', 'и', 'к', ',', ' ', 'ч', 'т', 'в', 'р', 'г', '1', '3', ':', '0'}
  {
  }

  lemma MondayThursdayFound(l: string)
    requires l == "понедельник, четверг в 13:30"
    ensures Contains(l, "понедельник") && Contains(l, "четверг")
  {
    ContainsIff(l, "понедельник");
    assert OccursAt(l, "понедельник", 0);
    ContainsIff(l, "четверг");
    assert OccursAt(l, "четверг", 13);
  }

  lemma MondayThursdayAbsent(l: string)
    requires l == "понедельник, четверг в 13:30"
    ensures !Contains(l, "ежедневно") && !Contains(l, "будние") && !Contains(l, "среда")
    ensures !Contains(l, "пятница") && !Contains(l, "суббота") && !Contains(l, "воскресенье")
  {
    MondayThursdayLetters(l);
    var a := {'п', 'о', 'н', 'е', 'д', 'л', 'ь', 'и', 'к', ',', ' ', 'ч', 'т', 'в', 'р', 'г', '1', '3', ':', '0'};
    CharAbsent(l, a, "ежедневно", 1);
    CharAbsent(l, a, "будние", 0);
    CharAbsent(l, a, "среда", 0);
    CharAbsent(l, a, "пятница", 1);
    CharAbsent(l, a, "суббота", 0);
    CharAbsent(l, a, "воскресенье", 2);
  }

  /** Every letter of "вторник" occurs in this text, but never "в" right before "т". */
  lemma MondayThursdayNoTuesday(l: string)
    requires l == "понедельник, четверг в 13:30"
    ensures !Contains(l, "вторник")
  {
    PairAbsent(l, "вторник", 0);
  }

  lemma MondayThursdayLower(t: string)
    requires t == "понедельник, четверг в 13:30"
    ensures Lower(t) == t
  {
  }

  lemma MondayThursdayDays(t: string)
    requires t == "понедельник, четверг в 13:30"
    ensures SheetDayList(t) == [0, 3]
  {
    MondayThursdayLower(t);
    MondayThursdayFound(Lower(t));
    MondayThursdayAbsent(Lower(t));
    MondayThursdayNoTuesday(Lower(t));
    var l := Lower(t);
    assert CollectFrom(SheetDays, l, 6) == [];
    assert CollectFrom(SheetDays, l, 5) == [3];
    assert CollectFrom(SheetDays, l, 2) == [0, 3];
  }

  lemma MondayThursdayTime(t: string)
    requires t == "понедельник, четверг в 13:30"
    ensures FirstTime(t) == Some((23, 28))
  {
    assert t[22] == ' ' && t[23] == '1' && t[24] == '3' && t[25] == ':' && t[26] == '3' && t[27] == '0';
    assert DigitRunEnd(t, 25) == 25;
    assert DigitRunEnd(t, 23) == 25;
    assert DigitRunEnd(t, 28) == 28;
    assert DigitRunEnd(t, 26) == 28;
    assert ':' !in t[..23];
    FirstRunWithColon(t, 23);
  }

  lemma MondayThursday(t: string)
    requires t == "понедельник, четверг в 13:30"
    ensures SliceSheetDates(t) == Some(SheetDates([0, 3], "13:30"))
  {
    MondayThursdayDays(t);
    MondayThursdayTime(t);
    assert t[23..28] == "13:30";
  }

  // "Ежедневно в 13:30 по рем.зоне. Ежедневно в 19:30 по магазину":
  // seven days, once each, and only the first time.

  lemma TwoPhrasesLetters(l: string)
    requires l == "ежедневно в 13:30" + " по рем.зоне." + " ежедневно в 19:30" + " по магазину"
    ensures forall k :: 0 <= k < |l| ==>
      l[k] in {'е', 'ж', 'д', 'н', 'в', 'о', ' ', '1', '3', ':', '0', 'п', 'р', 'м', '.', 'з', '9', 'а', 'г', 'и', 'у'}
  {
  }

  lemma TwoPhrasesFound(l: string)
    requires l == "ежедневно в 13:30" + " по рем.зоне." + " ежедневно в 19:30" + " по магазину"
    ensures Contains(l, "ежедневно")
  {
    ContainsIff(l, "ежедневно");
    assert l[..9] == "ежедневно";
    assert OccursAt(l, "ежедневно", 0);
  }

  lemma TwoPhrasesAbsent(l: string)
    requires l == "ежедневно в 13:30" + " по рем.зоне." + " ежедневно в 19:30" + " по магазину"
    ensures !Contains(l, "будние") && !Contains(l, "понедельник") && !Contains(l, "вторник") && !Contains(l, "среда")
    ensures !Contains(l, "четверг") && !Contains(l, "пятница") && !Contains(l, "суббота") && !Contains(l, "воскресенье")
  {
    TwoPhrasesLetters(l);
    var a := {'е', 'ж', 'д', 'н', 'в', 'о', ' ', '1', '3', ':', '0', 'п', 'р', 'м', '.', 'з', '9', 'а', 'г', 'и', 'у'};
    CharAbsent(l, a, "будние", 0);
    CharAbsent(l, a, "понедельник", 6);
    CharAbsent(l, a, "вторник", 1);
    CharAbsent(l, a, "среда", 0);
    CharAbsent(l, a, "четверг", 0);
    CharAbsent(l, a, "пятница", 1);
    CharAbsent(l, a, "суббота", 0);
    CharAbsent(l, a, "воскресенье", 2);
  }

  lemma TwoPhrasesLower(t: string)
    requires t == "Ежедневно в 13:30" + " по рем.зоне." + " Ежедневно в 19:30" + " по магазину"
    ensures Lower(t) == "ежедневно в 13:30" + " по рем.зоне." + " ежедневно в 19:30" + " по магазину"
  {
    var a, b, c, d := "Ежедневно в 13:30", " по рем.зоне.", " Ежедневно в 19:30", " по магазину";
    LowerAppend(a + b + c, d);
    LowerAppend(a + b, c);
    LowerAppend(a, b);
    assert Lower(a) == "ежедневно в 13:30";
    assert Lower(b) == b;
    assert Lower(c) == " ежедневно в 19:30";
    assert Lower(d) == d;
  }

  lemma TwoPhrasesDays(t: string)
    requires t == "Ежедневно в 13:30" + " по рем.зоне." + " Ежедневно в 19:30" + " по магазину"
    ensures SheetDayList(t) == [0, 1, 2, 3, 4, 5, 6]
  {
    TwoPhrasesLower(t);
    TwoPhrasesFound(Lower(t));
    TwoPhrasesAbsent(Lower(t));
    DailyByWords(t);
  }

  lemma TwoPhrasesTime(t: string)
    requires t == "Ежедневно в 13:30" + " по рем.зоне." + " Ежедневно в 19:30" + " по магазину"
    ensures FirstTime(t) == Some((12, 17))
  {
    assert t[11] == ' ' && t[12] == '1' && t[13] == '3' && t[14] == ':' && t[15] == '3' && t[16] == '0' && t[17] == ' ';
    assert DigitRunEnd(t, 14) == 14;
    assert DigitRunEnd(t, 12) == 14;
    assert DigitRunEnd(t, 17) == 17;
    assert DigitRunEnd(t, 15) == 17;
    assert ':' !in t[..12];
    FirstRunWithColon(t, 12);
  }

  /** Two time phrases: "ежедневно" counts once, and only the first time, "13:30", is kept. */
  lemma TwoPhrases(t: string)
    requires t == "Ежедневно в 13:30" + " по рем.зоне." + " Ежедневно в 19:30" + " по магазину"
    ensures SliceSheetDates(t) == Some(SheetDates([0, 1, 2, 3, 4, 5, 6], "13:30"))
  {
    TwoPhrasesDays(t);
    TwoPhrasesTime(t);
    assert t[12..17] == "13:30";
  }

  /** `DailyOnly` with its keyword conditions spelled out word by word. */
  lemma DailyByWords(text: string)
    requires Contains(Lower(text), "ежедневно")
    requires !Contains(Lower(text), "будние") && !Contains(Lower(text), "понедельник") && !Contains(Lower(text), "вторник")
    requires !Contains(Lower(text), "среда") && !Contains(Lower(text), "четверг") && !Contains(Lower(text), "пятница")
    requires !Contains(Lower(text), "суббота") && !Contains(Lower(text), "воскресенье")
    ensures SheetDayList(text) == [0, 1, 2, 3, 4, 5, 6]
  {
    DailyOnly(text);
  }

  /** `WorkdaysOnly` with its keyword conditions spelled out word by word. */
  lemma WorkdaysByWords(text: string)
    requires Contains(Lower(text), "будние")
    requires !Contains(Lower(text), "ежедневно") && !Contains(Lower(text), "понедельник") && !Contains(Lower(text), "вторник")
    requires !Contains(Lower(text), "среда") && !Contains(Lower(text), "четверг") && !Contains(Lower(text), "пятница")
    requires !Contains(Lower(text), "суббота") && !Contains(Lower(text), "воскресенье")
    ensures SheetDayList(text) == [0, 1, 2, 3, 4]
  {
    WorkdaysOnly(text);
  }
}
