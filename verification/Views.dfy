/**
 * When the views of recognised revenue agree, read off the term and the amount before anything
 * is generated (packages/revrec/src/schedules.ts, recognition.ts).
 */
module Views {
  import opened Wrappers
  import opened Sequences
  import opened Money
  import opened Calendar
  import opened RevRecTypes
  import opened Schedules
  import opened Recognition
  import opened Pipeline

  /**
   * What the periods before the last one, of those that end by a date, come to: each is its days
   * at the daily rate, rounded.
   */
  function EarlierAmounts(start: Day, end: Day, rate: real, g: Granularity, cutoff: Day): real
    decreases end - start
  {
    EndOfNotBefore(g, start);
    var periodEnd := EndOf(g, start);
    if periodEnd >= end then 0.0
    else
      (if periodEnd <= cutoff then Round2(Earned(rate, periodEnd - start + 1)) else 0.0) +
      EarlierAmounts(periodEnd + 1, end, rate, g, cutoff)
  }

  /** A period before the last one ends where its month or quarter does, and takes its rounded share. */
  lemma EarlierPeriod(periods: seq<SchedulePeriod>, start: Day, end: Day, total: real, g: Granularity, i: nat)
    requires start < end && IsStraightLine(periods, start, end, total, g) && i < |periods| - 1
    ensures var p := periods[i];
      && p.periodEnd == EndOf(g, p.periodStart) < end
      && p.periodEnd - p.periodStart + 1 == p.periodDays <= end - start
      && periods[i + 1].periodStart == p.periodEnd + 1
      && p.scheduledAmount == Round2(Earned(DailyRate(start, end, total), p.periodDays))
  {
    hide EndOf, Round2, Earned, DailyRate, Sum;
    assert RunsToEnd(periods[i], end, g) && RunsToEnd(periods[i + 1], end, g);
    ChainAscends(periods, start, end, g, i, |periods| - 1);
    StartsAfter(periods, start, end, g, i);
    assert Amounts(periods)[i] == Round2(DayShares(periods, DailyRate(start, end, total))[i]);
  }

  lemma {:induction false} EarlierFrom(
    periods: seq<SchedulePeriod>, start: Day, end: Day, total: real, g: Granularity, cutoff: Day, k: nat)
    requires start < end && IsStraightLine(periods, start, end, total, g) && k < |periods|
    ensures DueBy(periods[..|periods| - 1], cutoff) ==
      DueBy(periods[..k], cutoff) + EarlierAmounts(periods[k].periodStart, end, DailyRate(start, end, total), g, cutoff)
    decreases |periods| - k
  {
    hide EndOf, Round2, Earned, DailyRate, Sum, IsStraightLine;
    if k == |periods| - 1 {
      LastRunsToEnd(periods, start, end, total, g);
    } else {
      EarlierPeriod(periods, start, end, total, g, k);
      EarlierFrom(periods, start, end, total, g, cutoff, k + 1);
      assert periods[..k + 1][..k] == periods[..k];
    }
  }

  lemma LastRunsToEnd(periods: seq<SchedulePeriod>, start: Day, end: Day, total: real, g: Granularity)
    requires start < end && IsStraightLine(periods, start, end, total, g)
    ensures periods != []
    ensures var last := periods[|periods| - 1]; last.periodEnd == end <= EndOf(g, last.periodStart)
    ensures periods[0].periodStart == start
  {
    hide EndOf, Round2, Earned, DailyRate, Sum;
    assert RunsToEnd(periods[|periods| - 1], end, g);
  }

  /** Before the term ends the earlier periods are all that can be due; then all the rest is, too. */
  lemma DueInClosedForm(periods: seq<SchedulePeriod>, start: Day, end: Day, total: real, g: Granularity, cutoff: Day)
    requires start < end && IsStraightLine(periods, start, end, total, g)
    ensures var rate := DailyRate(start, end, total);
      DueBy(periods, cutoff) == if end <= cutoff then Round2(total) else EarlierAmounts(start, end, rate, g, cutoff)
    ensures periods[|periods| - 1].scheduledAmount ==
      Round2(total) - EarlierAmounts(start, end, DailyRate(start, end, total), g, end)
  {
    hide EndOf, Round2, DailyRate, Sum, IsStraightLine, EarlierAmounts;
    LastRunsToEnd(periods, start, end, total, g);
    EarlierFrom(periods, start, end, total, g, cutoff, 0);
    EarlierFrom(periods, start, end, total, g, end, 0);
    StraightLineConserves(periods, start, end, total, g);
    EndsByServiceEnd(periods, start, end, total, g);
    assert periods[..0] == [];
    EveryoneDue(periods, end);
    if end <= cutoff {
      EveryoneDue(periods, cutoff);
    }
  }

  lemma EveryoneDue(periods: seq<SchedulePeriod>, cutoff: Day)
    requires forall i :: 0 <= i < |periods| ==> periods[i].periodEnd <= cutoff
    ensures DueBy(periods, cutoff) == Sum(Amounts(periods))
  {
    DueOrPending(periods, cutoff);
    AllDue(periods, cutoff, cutoff);
  }

  // ---------- Signs ----------

  lemma RoundSign(x: real)
    ensures x >= 0.0 ==> Round2(x) >= 0.0
    ensures x <= 0.0 ==> Round2(x) <= 0.0
  {
  }

  lemma RoundMonotone(x: real, y: real)
    requires x <= y
    ensures Round2(x) <= Round2(y)
  {
    FloorMonotone(x * 100.0 + 0.5, y * 100.0 + 0.5);
  }

  lemma FloorMonotone(x: real, y: real)
    requires x <= y
    ensures x.Floor <= y.Floor
  {
  }

  lemma EarnedSign(start: Day, end: Day, total: real, days: int)
    requires start < end && 0 < days <= end - start
    ensures var x := Earned(DailyRate(start, end, total), days);
      if total >= 0.0 then x >= 0.0 else total <= x <= 0.0
  {
    var rate := DailyRate(start, end, total);
    RateOverTerm(total, end - start);
    EarnedSplits(rate, days, end - start - days);
    if total >= 0.0 {
      assert rate >= 0.0;
    } else {
      assert rate <= 0.0;
      assert Earned(rate, end - start - days) <= 0.0;
    }
  }

  /** The periods before the last have the sign of the total, and round to zero when it does from below. */
  lemma EarlierSign(periods: seq<SchedulePeriod>, start: Day, end: Day, total: real, g: Granularity, i: nat)
    requires start < end && IsStraightLine(periods, start, end, total, g) && i < |periods| - 1
    ensures total >= 0.0 ==> periods[i].scheduledAmount >= 0.0
    ensures total < 0.0 ==> Round2(total) <= periods[i].scheduledAmount <= 0.0
  {
    hide EndOf, Round2, Earned, DailyRate, IsStraightLine;
    EarlierPeriod(periods, start, end, total, g, i);
    StartBeforeEnd(periods, start, end, total, g, i);
    var x := Earned(DailyRate(start, end, total), periods[i].periodDays);
    EarnedSign(start, end, total, periods[i].periodDays);
    RoundSign(x);
    if total < 0.0 {
      RoundMonotone(total, x);
    }
  }

  lemma StartBeforeEnd(periods: seq<SchedulePeriod>, start: Day, end: Day, total: real, g: Granularity, i: nat)
    requires start < end && IsStraightLine(periods, start, end, total, g) && i < |periods|
    ensures periods[i].periodDays > 0
  {
    hide EndOf, DailyRate, Sum;
    assert RunsToEnd(periods[i], end, g);
  }

  ghost predicate NoneNegative(periods: seq<SchedulePeriod>, cutoff: Day) {
    forall i :: 0 <= i < |periods| && periods[i].periodEnd <= cutoff ==> periods[i].scheduledAmount >= 0.0
  }

  /** Amounts that are at most zero add up to zero only if each of them is zero. */
  lemma {:induction false} NonPositiveDue(periods: seq<SchedulePeriod>, cutoff: Day)
    requires forall i :: 0 <= i < |periods| && periods[i].periodEnd <= cutoff ==> periods[i].scheduledAmount <= 0.0
    ensures DueBy(periods, cutoff) <= 0.0
    ensures DueBy(periods, cutoff) >= 0.0 <==> NoneNegative(periods, cutoff)
  {
    if periods != [] {
      var k := |periods| - 1;
      NonPositiveDue(periods[..k], cutoff);
      assert forall i :: 0 <= i < k ==> periods[..k][i] == periods[i];
    }
  }

  lemma {:induction false} NonNegativeDue(periods: seq<SchedulePeriod>, cutoff: Day)
    requires NoneNegative(periods, cutoff)
    ensures DueBy(periods, cutoff) >= 0.0
  {
    if periods != [] {
      var k := |periods| - 1;
      assert forall i :: 0 <= i < k ==> periods[..k][i] == periods[i];
      NonNegativeDue(periods[..k], cutoff);
    }
  }

  /** Whether a negative amount is among those recognised by a date. */
  lemma NoneNegativeIff(periods: seq<SchedulePeriod>, start: Day, end: Day, total: real, g: Granularity, cutoff: Day)
    requires start < end && IsStraightLine(periods, start, end, total, g)
    ensures var rate := DailyRate(start, end, total);
      NoneNegative(periods, cutoff) <==>
        if total < 0.0 then DueBy(periods, cutoff) >= 0.0
        else cutoff < end || EarlierAmounts(start, end, rate, g, end) <= Round2(total)
  {
    hide EndOf, Round2, Earned, DailyRate, IsStraightLine, Sum, DueBy, EarlierAmounts;
    var n := |periods|;
    DueInClosedForm(periods, start, end, total, g, cutoff);
    LastRunsToEnd(periods, start, end, total, g);
    EndsByServiceEnd(periods, start, end, total, g);
    forall i | 0 <= i < n - 1
      ensures total >= 0.0 ==> periods[i].scheduledAmount >= 0.0
      ensures total < 0.0 ==> Round2(total) <= periods[i].scheduledAmount <= 0.0
    {
      EarlierSign(periods, start, end, total, g, i);
    }
    if total < 0.0 {
      if cutoff < end {
        NonPositiveDue(periods, cutoff);
      } else {
        NegativeTotal(periods, start, end, total, g, cutoff);
      }
    }
  }

  /** A negative total that rounds to zero makes every period zero; any other leaves a negative one. */
  lemma NegativeTotal(periods: seq<SchedulePeriod>, start: Day, end: Day, total: real, g: Granularity, cutoff: Day)
    requires start < end && IsStraightLine(periods, start, end, total, g) && total < 0.0 && end <= cutoff
    ensures NoneNegative(periods, cutoff) <==> DueBy(periods, cutoff) >= 0.0
  {
    hide EndOf, Round2, Earned, DailyRate, IsStraightLine, Sum, EarlierAmounts;
    DueInClosedForm(periods, start, end, total, g, cutoff);
    RoundSign(total);
    LastRunsToEnd(periods, start, end, total, g);
    var earlier := periods[..|periods| - 1];
    forall i | 0 <= i < |earlier| ensures Round2(total) <= earlier[i].scheduledAmount <= 0.0 {
      EarlierSign(periods, start, end, total, g, i);
    }
    NonPositiveDue(earlier, cutoff);
    if NoneNegative(periods, cutoff) {
      NonNegativeDue(periods, cutoff);
    }
  }

  // ---------- The condition ----------

  /**
   * A straight-line obligation's applied periods add up to what its events recognise, for an
   * amount that is not negative, exactly before the term ends or when the rounded shares of the
   * periods before the last one do not exceed it; for a negative amount exactly as long as what is
   * recognised rounds to zero.
   */
  lemma PeriodViewAgreesIff(
    periods: seq<SchedulePeriod>, start: Day, end: Day, amount: real, g: Granularity,
    asOfDate: Option<Day>, now: Day)
    requires start < end && IsStraightLine(periods, start, end, amount, g)
    ensures var (today, rate) := (asOfDate.GetOr(now), DailyRate(start, end, amount));
      var events := EventsFor(periods, today);
      && CalculateCumulativeRecognized(events, asOfDate, now) ==
           (if end <= today then Round2(amount) else EarlierAmounts(start, end, rate, g, today))
      && (Sum(AppliedAmounts(periods, events)) == CalculateCumulativeRecognized(events, asOfDate, now) <==>
            if amount >= 0.0 then today < end || EarlierAmounts(start, end, rate, g, end) <= Round2(amount)
            else (if end <= today then Round2(amount) else EarlierAmounts(start, end, rate, g, today)) == 0.0)
  {
    var today := asOfDate.GetOr(now);
    StraightLineSettled(periods, start, end, amount, g);
    hide EndOf, Round2, Earned, DailyRate, IsStraightLine, IsCents, EventsFor, EarlierAmounts, DueBy, SumWhere;
    assert CentAmounts(periods) by {
      forall i | 0 <= i < |periods| ensures IsCents(periods[i].scheduledAmount) {
        assert Settled(periods[i]);
      }
    }
    PeriodViewIsEventView(periods, asOfDate, now);
    CumulativeIsDue(periods, today, today);
    DueInClosedForm(periods, start, end, amount, g, today);
    NoneNegativeIff(periods, start, end, amount, g, today);
    if amount < 0.0 {
      NegativeRecognized(periods, start, end, amount, g, today);
    }
  }

  lemma NegativeRecognized(periods: seq<SchedulePeriod>, start: Day, end: Day, total: real, g: Granularity, cutoff: Day)
    requires start < end && IsStraightLine(periods, start, end, total, g) && total < 0.0
    ensures DueBy(periods, cutoff) <= 0.0
  {
    hide EndOf, Round2, Earned, DailyRate, IsStraightLine, Sum, EarlierAmounts;
    DueInClosedForm(periods, start, end, total, g, cutoff);
    RoundSign(total);
    LastRunsToEnd(periods, start, end, total, g);
    if cutoff < end {
      forall i | 0 <= i < |periods| - 1 ensures periods[i].scheduledAmount <= 0.0 {
        EarlierSign(periods, start, end, total, g, i);
      }
      NonPositiveDue(periods, cutoff);
    }
  }

  /**
   * One cent from 1 July to 1 September of any year from 100 on: half a cent rounds up in each of
   * the two months, the last period takes a cent back, and from then on the views differ.
   */
  lemma ViewsDisagreeExample(
    periods: seq<SchedulePeriod>, year: int, start: Day, end: Day, asOfDate: Option<Day>, now: Day)
    requires year >= 100 && start == NewDate(year, 6, 1) && end == NewDate(year, 8, 1)
    requires start < end && IsStraightLine(periods, start, end, 0.01, Monthly)
    requires end <= asOfDate.GetOr(now)
    ensures periods[|periods| - 1].scheduledAmount == -0.01
    ensures var events := EventsFor(periods, asOfDate.GetOr(now));
      && CalculateCumulativeRecognized(events, asOfDate, now) == 0.01
      && Sum(AppliedAmounts(periods, events)) != 0.01
  {
    hide EndOf, DailyRate, IsStraightLine, EventsFor, AppliedAmounts, CalculateCumulativeRecognized, Sum, NewDate,
      EarlierAmounts, Round2;
    Summer(year);
    TwoHalfCents(start, end);
    OneCent();
    PeriodViewAgreesIff(periods, start, end, 0.01, Monthly, asOfDate, now);
    DueInClosedForm(periods, start, end, 0.01, Monthly, end);
  }

  lemma OneCent()
    ensures Round2(0.01) == 0.01
  {
  }

  lemma Summer(year: int)
    requires year >= 100
    ensures var (july, september) := (NewDate(year, 6, 1), NewDate(year, 8, 1));
      september == july + 62 && EndOf(Monthly, july) == july + 30 && EndOf(Monthly, july + 31) == july + 61
      && EndOf(Monthly, september) >= september
  {
    hide EndOf, YearOf, MonthOf, DayFromYear;
    FieldsOfMakeDay(year, 6, 1);
    FieldsOfMakeDay(year, 7, 1);
    EndOfMeaning(Monthly, NewDate(year, 6, 1));
    EndOfMeaning(Monthly, NewDate(year, 7, 1));
    EndOfNotBefore(Monthly, NewDate(year, 8, 1));
  }

  lemma TwoHalfCents(july: Day, september: Day)
    requires september == july + 62 && EndOf(Monthly, july) == july + 30 && EndOf(Monthly, july + 31) == july + 61
    requires EndOf(Monthly, september) >= september
    ensures EarlierAmounts(july, september, DailyRate(july, september, 0.01), Monthly, september) == 0.02
  {
    hide EndOf;
    var rate := DailyRate(july, september, 0.01);
    assert Earned(rate, 31) == 0.005;
    assert Round2(0.005) == 0.01;
    assert EarlierAmounts(september, september, rate, Monthly, september) == 0.0;
  }
}
