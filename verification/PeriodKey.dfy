/** Period keys: two dates as text (packages/revrec/src/reconciliation.ts). */
module PeriodKey {
  import opened Wrappers
  import opened Calendar
  import opened Text

  function DateText(year: string, month: string, date: string): string {
    year + "-" + (month + "-" + date)
  }

  function FormatDate(d: Day): string {
    DateText(IntText(YearOf(d)), PadStart2(NatText(MonthOf(d) + 1)), PadStart2(NatText(DateOf(d))))
  }

  function GetPeriodKey(start: Day, end: Day): string {
    FormatDate(start) + "|" + FormatDate(end)
  }

  /** None is an invalid date, from a part that is missing or not a number. */
  function ParseDateOnly(value: string): Option<Day> {
    var parts := Split(value, '-');
    if |parts| < 3 then None
    else
      match (NumberOf(parts[0]), NumberOf(parts[1]), NumberOf(parts[2]))
      case (Some(year), Some(month), Some(day)) => Some(NewDate(year, month - 1, day))
      case _ => None
  }

  /** The two dates of a key; parts beyond the second are ignored. */
  function ParsePeriodKey(key: string): (Option<Day>, Option<Day>) {
    var parts := Split(key, '|');
    (ParseDateOnly(parts[0]), if |parts| > 1 then ParseDateOnly(parts[1]) else None)
  }

  // ---------- Reading back a printed date ----------

  lemma {:induction false} DigitsLack(s: string, c: char)
    requires AllDigits(s) && !IsDigit(c)
    ensures c !in s
  {
  }

  lemma SplitThree(a: string, b: string, c: string)
    requires '-' !in a && '-' !in b && '-' !in c
    ensures Split(DateText(a, b, c), '-') == [a, b, c]
  {
    SplitStep(a, b + "-" + c, '-');
    SplitStep(b, c, '-');
    assert Split(c, '-') == [c];
    hide Split;
    assert [a] + ([b] + [c]) == [a, b, c];
  }

  lemma SplitNegative(text: string, a: string, b: string, c: string)
    requires '-' !in a && '-' !in b && '-' !in c && text == "-" + a
    ensures var parts := Split(DateText(text, b, c), '-');
      |parts| == 4 && parts[0] == "" && parts[1] == a && parts[2] == b && parts[3] == c
  {
    hide Split;
    SplitThree(a, b, c);
    SplitStep("", DateText(a, b, c), '-');
    assert DateText(text, b, c) == "" + ['-'] + DateText(a, b, c);
    hide DateText;
    assert [""] + [a, b, c] == ["", a, b, c];
  }

  lemma ParseParts(value: string, parts: seq<string>)
    requires Split(value, '-') == parts && |parts| >= 3
    requires AllDigits(parts[0]) && AllDigits(parts[1]) && AllDigits(parts[2])
    ensures ParseDateOnly(value) ==
            Some(NewDate(DigitsValue(parts[0]), DigitsValue(parts[1]) - 1, DigitsValue(parts[2])))
  {
    hide Split, AllDigits, DigitsValue, NewDate;
  }

  lemma ParsePositive(year: nat, month: nat, date: nat)
    ensures ParseDateOnly(DateText(IntText(year), PadStart2(NatText(month)), PadStart2(NatText(date)))) ==
            Some(NewDate(year, month - 1, date))
  {
    NatTextValue(year);
    PaddedValue(month);
    PaddedValue(date);
    hide NatText, PadStart2, DigitsValue, NewDate, AllDigits, Split, DateText, ParseDateOnly;
    var y, m, n := NatText(year), PadStart2(NatText(month)), PadStart2(NatText(date));
    DigitsLack(y, '-');
    DigitsLack(m, '-');
    DigitsLack(n, '-');
    SplitThree(y, m, n);
    ParseParts(DateText(y, m, n), [y, m, n]);
  }

  lemma NegativeParts(text: string, y: string, m: string, n: string)
    requires AllDigits(y) && AllDigits(m) && AllDigits(n) && text == "-" + y
    ensures ParseDateOnly(DateText(text, m, n)) == Some(NewDate(0, DigitsValue(y) - 1, DigitsValue(m)))
  {
    hide DigitsValue, NewDate, AllDigits, Split, DateText, ParseDateOnly;
    DigitsLack(y, '-');
    DigitsLack(m, '-');
    DigitsLack(n, '-');
    SplitNegative(text, y, m, n);
    var parts := Split(DateText(text, m, n), '-');
    EmptyIsZero(parts[0]);
    ParseParts(DateText(text, m, n), parts);
  }

  lemma NegativeText(year: int)
    requires year < 0
    ensures IntText(year) == "-" + NatText(-year)
    ensures AllDigits(NatText(-year)) && DigitsValue(NatText(-year)) == -year
  {
    NatTextValue(-year);
  }

  /** A minus sign shifts the parts: the year reads as 0, its digits as the month. */
  lemma ParseNegative(year: int, month: nat, date: nat)
    requires year < 0
    ensures ParseDateOnly(DateText(IntText(year), PadStart2(NatText(month)), PadStart2(NatText(date)))) ==
            Some(NewDate(0, -year - 1, month))
  {
    hide NatText, PadStart2, DigitsValue, NewDate, AllDigits, DateText, ParseDateOnly, IntText;
    NegativeText(year);
    PaddedValue(month);
    PaddedValue(date);
    NegativeParts(IntText(year), NatText(-year), PadStart2(NatText(month)), PadStart2(NatText(date)));
  }

  lemma EmptyIsZero(s: string)
    requires s == ""
    ensures AllDigits(s) && DigitsValue(s) == 0
  {
  }

  /** A printed date always reads back as some date, and as the same one exactly from year 100 on. */
  lemma FormatThenParse(d: Day)
    ensures ParseDateOnly(FormatDate(d)).Some?
    ensures ParseDateOnly(FormatDate(d)) == Some(d) <==> YearOf(d) >= 100
  {
    var y, m, n := YearOf(d), MonthOf(d), DateOf(d);
    NewDateOfFields(d);
    hide ParseDateOnly, NewDate, IntText, NatText, PadStart2, YearOf, MonthOf, DateOf, DayFromYear, DateText;
    if y >= 0 {
      ParsePositive(y, m + 1, n);
    } else {
      ParseNegative(y, m + 1, n);
      NewDateMoves(0, -y - 1, m + 1);
      if DayFromYear(1900) <= d {
        YearMonotone(DayFromYear(1900), d);
        FirstDayIn1900();
      }
    }
  }

  lemma FirstDayIn1900()
    ensures YearOf(DayFromYear(1900)) == 1900
  {
    YearStep(1900);
    YearUnique(DayFromYear(1900), 1900);
  }

  lemma FormatLacksBar(d: Day)
    ensures '|' !in FormatDate(d)
  {
    PaddedValue(MonthOf(d) + 1);
    PaddedValue(DateOf(d));
    hide YearOf, MonthOf, DateOf, NatText, PadStart2;
    DigitsLack(NatText(if YearOf(d) < 0 then -YearOf(d) else YearOf(d)), '|');
    DigitsLack(PadStart2(NatText(MonthOf(d) + 1)), '|');
    DigitsLack(PadStart2(NatText(DateOf(d))), '|');
  }

  /** Printing two dates as a key and parsing it gives both back exactly from year 100 on. */
  lemma PeriodKeyRoundTrip(start: Day, end: Day)
    ensures ParsePeriodKey(GetPeriodKey(start, end)) == (Some(start), Some(end)) <==>
            YearOf(start) >= 100 && YearOf(end) >= 100
  {
    FormatLacksBar(start);
    FormatLacksBar(end);
    FormatThenParse(start);
    FormatThenParse(end);
    hide FormatDate, ParseDateOnly, YearOf;
    SplitStep(FormatDate(start), FormatDate(end), '|');
    assert Split(FormatDate(end), '|') == [FormatDate(end)];
  }

  // ---------- Different periods have different keys ----------

  lemma IntTextInjective(a: int, b: int)
    requires IntText(a) == IntText(b)
    ensures a == b
  {
    NatTextValue(if a < 0 then -a else a);
    NatTextValue(if b < 0 then -b else b);
    DigitsLack(NatText(if a < 0 then -a else a), '-');
    DigitsLack(NatText(if b < 0 then -b else b), '-');
    hide NatText, DigitsValue;
    assert a < 0 ==> IntText(a)[0] == '-' && IntText(a)[1..] == NatText(-a);
    assert b < 0 ==> IntText(b)[0] == '-' && IntText(b)[1..] == NatText(-b);
    assert a >= 0 ==> '-' !in IntText(a);
    assert b >= 0 ==> '-' !in IntText(b);
  }

  lemma SameLengthTail(a: string, b: string, s: string, t: string)
    requires a + s == b + t && |s| == |t|
    ensures a == b && s == t
  {
    assert a == (a + s)[..|a|] && b == (b + t)[..|b|];
    assert s == (a + s)[|a|..] && t == (b + t)[|b|..];
  }

  lemma DateTextInjective(y: string, m: string, n: string, y': string, m': string, n': string)
    requires |m| == |m'| && |n| == |n'| && DateText(y, m, n) == DateText(y', m', n')
    ensures y == y' && m == m' && n == n'
  {
    SameLengthTail(y + "-", y' + "-", m + "-" + n, m' + "-" + n');
    SameLengthTail(y, y', "-", "-");
    SameLengthTail(m + "-", m' + "-", n, n');
    SameLengthTail(m, m', "-", "-");
  }

  /** Dates of any year print differently. */
  lemma FormatInjective(d: Day, e: Day)
    requires FormatDate(d) == FormatDate(e)
    ensures d == e
  {
    NewDateOfFields(d);
    NewDateOfFields(e);
    PaddedValue(MonthOf(d) + 1);
    PaddedValue(DateOf(d));
    PaddedValue(MonthOf(e) + 1);
    PaddedValue(DateOf(e));
    hide YearOf, MonthOf, DateOf, NatText, PadStart2, DigitsValue, NewDate, MakeDay, IntText;
    hide DateText;
    DateTextInjective(IntText(YearOf(d)), PadStart2(NatText(MonthOf(d) + 1)), PadStart2(NatText(DateOf(d))),
                      IntText(YearOf(e)), PadStart2(NatText(MonthOf(e) + 1)), PadStart2(NatText(DateOf(e))));
    IntTextInjective(YearOf(d), YearOf(e));
  }

  lemma PeriodKeyInjective(start: Day, end: Day, start': Day, end': Day)
    requires GetPeriodKey(start, end) == GetPeriodKey(start', end')
    ensures start == start' && end == end'
  {
    FormatLacksBar(start);
    FormatLacksBar(start');
    hide FormatDate;
    SplitAtFirst('|', FormatDate(start), FormatDate(end), FormatDate(start'), FormatDate(end'));
    FormatInjective(start, start');
    FormatInjective(end, end');
  }
}
