/** Recognition schedules: splitting a service term into calendar periods (packages/revrec/src/schedules.ts). */
module Schedules {
  import opened Sequences
  import opened Money
  import opened Calendar
  import opened RevRecTypes

  // ---------- What a schedule over a term is ----------

  /** Consecutive periods from `start`, each running to the end of its month or quarter but not past `cap`. */
  ghost predicate Chained(periods: seq<SchedulePeriod>, start: Day, cap: Day, g: Granularity) {
    && (|periods| > 0 ==> periods[0].periodStart == start)
    && (forall i :: 0 <= i < |periods| ==> RunsToEnd(periods[i], cap, g))
    && (forall i :: 0 <= i < |periods| - 1 ==> periods[i + 1].periodStart == periods[i].periodEnd + 1)
  }

  ghost predicate RunsToEnd(p: SchedulePeriod, cap: Day, g: Granularity) {
    var end := EndOf(g, p.periodStart);
    && p.periodStart <= p.periodEnd
    && p.periodEnd == (if end > cap then cap else end)
    && p.periodDays == p.periodEnd - p.periodStart + 1
  }

  /** The total over the exclusive number of days. */
  function DailyRate(start: Day, end: Day, total: real): real
    requires start < end
  {
    total / DifferenceInDays(end, start) as real
  }

  /** What a number of days earns at a daily rate. */
  function Earned(rate: real, days: int): real {
    rate * days as real
  }

  /** The parts of the total that the periods stand for: rate times days, the last period one day short. */
  function DayShares(periods: seq<SchedulePeriod>, rate: real): (shares: seq<real>)
    ensures |shares| == |periods|
  {
    seq(|periods|, i requires 0 <= i < |periods| =>
      Earned(rate, periods[i].periodDays - (if i == |periods| - 1 then 1 else 0)))
  }

  ghost predicate PendingStraightLine(p: SchedulePeriod, rate: real) {
    && p.recognizedAmount == 0.0
    && p.deferredAmount == p.scheduledAmount
    && p.dailyRate == Round6(rate)
    && p.recognitionMethod == StraightLine
    && p.status == Pending
  }

  ghost predicate IsStraightLine(periods: seq<SchedulePeriod>, start: Day, end: Day, total: real, g: Granularity)
    requires start < end
  {
    var rate := DailyRate(start, end, total);
    && |periods| > 0
    && Chained(periods, start, end, g)
    && periods[|periods| - 1].periodEnd == end
    && LastTakesRemainder(Amounts(periods), DayShares(periods, rate), total)
    && forall i :: 0 <= i < |periods| ==> PendingStraightLine(periods[i], rate)
  }

  /** The single period of a term that does not end after it starts. */
  function SameDayPeriod(start: Day, end: Day, total: real): SchedulePeriod {
    SchedulePeriod(start, end, Round2(total), 0.0, Round2(total), 1, Round6(total), StraightLine, Pending)
  }

  ghost predicate Placeholder(p: SchedulePeriod) {
    && p.scheduledAmount == p.recognizedAmount == p.deferredAmount == p.dailyRate == 0.0
    && p.recognitionMethod == UsageBased
    && p.status == Pending
  }

  ghost predicate IsUsagePlaceholders(periods: seq<SchedulePeriod>, start: Day, end: Day, g: Granularity) {
    && (periods == [] <==> end <= start)
    && Chained(periods, start, end, g)
    && (periods != [] ==>
          var last := periods[|periods| - 1]; last.periodStart < end && last.periodEnd >= end - 1)
    && forall i :: 0 <= i < |periods| ==> Placeholder(periods[i])
  }

  // ---------- The generators ----------

  /** Where the next period starts once `periods` have been pushed. */
  function NextStart(periods: seq<SchedulePeriod>, start: Day): Day {
    if periods == [] then start else periods[|periods| - 1].periodEnd + 1
  }

  /** The loop's state before the last period: every amount so far is a rounded rate times days. */
  ghost predicate InProgress(periods: seq<SchedulePeriod>, start: Day, end: Day, rate: real, g: Granularity) {
    && Chained(periods, start, end, g)
    && forall i :: 0 <= i < |periods| ==>
         PendingStraightLine(periods[i], rate) &&
         periods[i].scheduledAmount == Round2(Earned(rate, periods[i].periodDays))
  }

  lemma NothingYet(start: Day, end: Day, rate: real, g: Granularity)
    ensures Chained([], start, end, g) && InProgress([], start, end, rate, g)
    ensures Amounts([]) == [] && Sum([]) == 0.0
  {
  }

  lemma ChainPush(periods: seq<SchedulePeriod>, p: SchedulePeriod, start: Day, cap: Day, g: Granularity)
    requires Chained(periods, start, cap, g) && RunsToEnd(p, cap, g)
    requires p.periodStart == NextStart(periods, start)
    ensures Chained(periods + [p], start, cap, g)
  {
    hide RunsToEnd;
  }

  lemma ProgressPush(periods: seq<SchedulePeriod>, p: SchedulePeriod, start: Day, end: Day, rate: real, g: Granularity)
    requires InProgress(periods, start, end, rate, g) && RunsToEnd(p, end, g)
    requires p.periodStart == NextStart(periods, start)
    requires PendingStraightLine(p, rate) && p.scheduledAmount == Round2(Earned(rate, p.periodDays))
    ensures InProgress(periods + [p], start, end, rate, g)
  {
    ChainPush(periods, p, start, end, g);
    hide RunsToEnd, Chained, PendingStraightLine, Round2, Earned;
  }

  lemma AmountsFinish(periods: seq<SchedulePeriod>, p: SchedulePeriod, rate: real, total: real)
    requires forall i :: 0 <= i < |periods| ==>
      periods[i].scheduledAmount == Round2(Earned(rate, periods[i].periodDays))
    requires p.scheduledAmount == Round2(total - Sum(Amounts(periods)))
    ensures LastTakesRemainder(Amounts(periods + [p]), DayShares(periods + [p], rate), total)
  {
    hide Round2, Earned, Sum;
    assert Amounts(periods + [p])[..|periods|] == Amounts(periods);
  }

  lemma ProgressFinish(
    periods: seq<SchedulePeriod>, p: SchedulePeriod, start: Day, end: Day, total: real, g: Granularity)
    requires start < end && p.periodEnd == end
    requires var rate := DailyRate(start, end, total);
      InProgress(periods, start, end, rate, g) && PendingStraightLine(p, rate)
    requires RunsToEnd(p, end, g) && p.periodStart == NextStart(periods, start)
    requires p.scheduledAmount == Round2(total - Sum(Amounts(periods)))
    ensures IsStraightLine(periods + [p], start, end, total, g)
  {
    hide RunsToEnd, Chained, PendingStraightLine, Round2, Earned, Sum, LastTakesRemainder, DailyRate;
    ChainPush(periods, p, start, end, g);
    AmountsFinish(periods, p, DailyRate(start, end, total), total);
  }

  method GenerateStraightLineSchedule(start: Day, end: Day, total: real, g: Granularity)
    returns (periods: seq<SchedulePeriod>)
    ensures end <= start ==> periods == [SameDayPeriod(start, end, total)]
    ensures start < end ==> IsStraightLine(periods, start, end, total, g)
  {
    hide EndOf, Earned, Round2, Round6, Sum, Chained, IsStraightLine;
    periods := [];
    if end <= start {
      return [SameDayPeriod(start, end, total)];
    }
    var totalDays := DifferenceInDays(end, start);
    var dailyRate := total / totalDays as real;
    var currentStart := start;
    var allocatedTotal := 0.0;
    NothingYet(start, end, dailyRate, g);
    while currentStart <= end
      invariant currentStart == NextStart(periods, start) <= end
      invariant InProgress(periods, start, end, dailyRate, g)
      invariant allocatedTotal == Sum(Amounts(periods))
      decreases end - currentStart
    {
      var periodEnd := EndOf(g, currentStart);
      EndOfNotBefore(g, currentStart);
      if periodEnd > end {
        periodEnd := end;
      }
      var periodDays := DifferenceInDays(periodEnd, currentStart) + 1;
      var nextStart := AddDays(periodEnd, 1);
      var isLastPeriod := nextStart > end;
      var scheduledAmount :=
        if isLastPeriod then Round2(total - allocatedTotal) else Round2(Earned(dailyRate, periodDays));
      var period := SchedulePeriod(currentStart, periodEnd, scheduledAmount, 0.0, scheduledAmount, periodDays,
                                   Round6(dailyRate), StraightLine, Pending);
      if isLastPeriod {
        ProgressFinish(periods, period, start, end, total, g);
      } else {
        ProgressPush(periods, period, start, end, dailyRate, g);
      }
      SumPush(Amounts(periods), scheduledAmount);
      assert Amounts(periods + [period]) == Amounts(periods) + [scheduledAmount];
      allocatedTotal := allocatedTotal + scheduledAmount;
      periods := periods + [period];
      if nextStart > end {
        break;
      }
      currentStart := nextStart;
    }
  }

  method GenerateUsageBasedSchedule(start: Day, end: Day, total: real, g: Granularity)
    returns (periods: seq<SchedulePeriod>)
    ensures IsUsagePlaceholders(periods, start, end, g)
  {
    hide EndOf, Chained;
    periods := [];
    var currentStart := start;
    NothingYet(start, end, 0.0, g);
    while currentStart < end
      invariant Chained(periods, start, end, g)
      invariant currentStart == NextStart(periods, start)
      invariant periods != [] ==> start < end && periods[|periods| - 1].periodStart < end
      invariant forall i :: 0 <= i < |periods| ==> Placeholder(periods[i])
      decreases end - currentStart
    {
      var periodEnd := EndOf(g, currentStart);
      EndOfNotBefore(g, currentStart);
      if periodEnd > end {
        periodEnd := end;
      }
      var periodDays := DifferenceInDays(periodEnd, currentStart) + 1;
      var period := SchedulePeriod(currentStart, periodEnd, 0.0, 0.0, 0.0, periodDays, 0.0, UsageBased, Pending);
      ChainPush(periods, period, start, end, g);
      periods := periods + [period];
      currentStart := AddDays(periodEnd, 1);
    }
  }

  function GenerateMilestoneSchedule(start: Day, end: Day, total: real): seq<SchedulePeriod> {
    var days := DifferenceInDays(end, start);
    var periodDays := if days > 1 then days else 1;
    [SchedulePeriod(start, end, Round2(total), 0.0, Round2(total), periodDays,
                    Round6(total / periodDays as real), Milestone, Pending)]
  }

  function GenerateAsInvoicedSchedule(start: Day, total: real): seq<SchedulePeriod> {
    [SchedulePeriod(start, start, Round2(total), Round2(total), 0.0, 1, Round6(total), AsInvoiced, Recognized)]
  }

  ghost predicate IsScheduleFor(
    periods: seq<SchedulePeriod>, obligation: IdentifiedObligation, amount: real, g: Granularity)
  {
    var (start, end) := (obligation.serviceStartDate, obligation.serviceEndDate);
    match obligation.recognitionMethod
    case StraightLine =>
      if start < end then IsStraightLine(periods, start, end, amount, g)
      else periods == [SameDayPeriod(start, end, amount)]
    case UsageBased => IsUsagePlaceholders(periods, start, end, g)
    case Milestone => periods == GenerateMilestoneSchedule(start, end, amount)
    case AsInvoiced => periods == GenerateAsInvoicedSchedule(start, amount)
  }

  method GenerateSchedule(obligation: IdentifiedObligation, allocatedAmount: real, g: Granularity)
    returns (periods: seq<SchedulePeriod>)
    ensures IsScheduleFor(periods, obligation, allocatedAmount, g)
  {
    var start, end := obligation.serviceStartDate, obligation.serviceEndDate;
    match obligation.recognitionMethod {
      case StraightLine =>
        periods := GenerateStraightLineSchedule(start, end, allocatedAmount, g);
      case UsageBased =>
        periods := GenerateUsageBasedSchedule(start, end, allocatedAmount, g);
      case Milestone =>
        periods := GenerateMilestoneSchedule(start, end, allocatedAmount);
      case AsInvoiced =>
        periods := GenerateAsInvoicedSchedule(start, allocatedAmount);
    }
  }

  // ---------- The periods tile the term ----------

  lemma {:induction false} ChainAscends(
    periods: seq<SchedulePeriod>, start: Day, cap: Day, g: Granularity, i: nat, j: nat)
    requires Chained(periods, start, cap, g) && i < j < |periods|
    ensures periods[i].periodEnd < periods[j].periodStart
    decreases j - i
  {
    if i + 1 < j {
      ChainAscends(periods, start, cap, g, i, j - 1);
    }
  }

  ghost predicate Contains(p: SchedulePeriod, day: Day) {
    p.periodStart <= day <= p.periodEnd
  }

  /** The period a day falls in. */
  function PeriodAt(periods: seq<SchedulePeriod>, day: Day, i: nat): nat
    requires i < |periods|
    decreases |periods| - i
  {
    if day <= periods[i].periodEnd || i + 1 == |periods| then i else PeriodAt(periods, day, i + 1)
  }

  lemma {:induction false} PeriodAtContains(
    periods: seq<SchedulePeriod>, start: Day, cap: Day, g: Granularity, day: Day, i: nat)
    requires Chained(periods, start, cap, g) && i < |periods|
    requires periods[i].periodStart <= day <= periods[|periods| - 1].periodEnd
    ensures var k := PeriodAt(periods, day, i); k < |periods| && Contains(periods[k], day)
    decreases |periods| - i
  {
    if periods[i].periodEnd < day {
      PeriodAtContains(periods, start, cap, g, day, i + 1);
    }
  }

  /** Every day of the term falls in exactly one period, and no period reaches outside the term. */
  lemma EachDayInOnePeriod(periods: seq<SchedulePeriod>, start: Day, end: Day, total: real, g: Granularity, day: Day)
    requires start < end && IsStraightLine(periods, start, end, total, g)
    ensures start <= day <= end <==> exists i :: 0 <= i < |periods| && Contains(periods[i], day)
    ensures forall i, j :: 0 <= i < j < |periods| ==> !(Contains(periods[i], day) && Contains(periods[j], day))
  {
    if start <= day <= end {
      PeriodAtContains(periods, start, end, g, day, 0);
      assert Contains(periods[PeriodAt(periods, day, 0)], day);
    }
    forall i, j | 0 <= i < j < |periods| ensures periods[i].periodEnd < periods[j].periodStart {
      ChainAscends(periods, start, end, g, i, j);
    }
    forall i | 0 <= i < |periods| ensures start <= periods[i].periodStart && periods[i].periodEnd <= end {
      if i > 0 { ChainAscends(periods, start, end, g, 0, i); }
    }
  }

  function TotalDays(periods: seq<SchedulePeriod>): int {
    if periods == [] then 0 else TotalDays(periods[..|periods| - 1]) + periods[|periods| - 1].periodDays
  }

  /** Inclusive days of the periods add up to the inclusive length of what they cover. */
  lemma {:induction false} ChainDays(periods: seq<SchedulePeriod>, start: Day, cap: Day, g: Granularity)
    requires Chained(periods, start, cap, g) && periods != []
    ensures TotalDays(periods) == periods[|periods| - 1].periodEnd - start + 1
  {
    var k := |periods| - 1;
    if k > 0 {
      ChainDays(periods[..k], start, cap, g);
    }
  }

  /**
   * A period stays within one month (quarter) unless it starts in one of the years 0..99 and the
   * term goes on past that month (quarter).
   */
  lemma PeriodWithinCalendar(periods: seq<SchedulePeriod>, start: Day, end: Day, total: real, g: Granularity, i: nat)
    requires start < end && IsStraightLine(periods, start, end, total, g) && i < |periods|
    ensures var p := periods[i];
      PeriodIndex(g, p.periodStart) == PeriodIndex(g, p.periodEnd) <==>
      !(TwoDigitYear(YearOf(p.periodStart)) && PeriodIndex(g, end) > PeriodIndex(g, p.periodStart))
  {
    var p := periods[i];
    EndOfStaysInPeriod(g, p.periodStart);
    PeriodIndexMonotone(g, p.periodStart, p.periodEnd);
    PeriodIndexMonotone(g, p.periodEnd, end);
    PeriodIndexMonotone(g, p.periodEnd, EndOf(g, p.periodStart));
    if TwoDigitYear(YearOf(p.periodStart)) {
      EndOfTwoDigitYear(g, p.periodStart);
    }
  }

  /** From year 100 on, period i is the i-th month (quarter) of the term... */
  lemma {:induction false} PeriodNumber(
    periods: seq<SchedulePeriod>, start: Day, cap: Day, g: Granularity, i: nat)
    requires YearOf(start) >= 100 && Chained(periods, start, cap, g) && i < |periods|
    ensures PeriodIndex(g, periods[i].periodStart) == PeriodIndex(g, start) + i
    ensures YearOf(periods[i].periodStart) >= 100
  {
    hide EndOf, PeriodIndex, YearOf;
    if i > 0 {
      PeriodNumber(periods, start, cap, g, i - 1);
      var p := periods[i - 1];
      EndOfStaysInPeriod(g, p.periodStart);
      YearMonotone(p.periodStart, periods[i].periodStart);
      assert RunsToEnd(periods[i], cap, g);
      assert p.periodEnd < cap;
    }
  }

  /** ...so there are as many periods as the term touches months (quarters). */
  lemma PeriodCount(periods: seq<SchedulePeriod>, start: Day, end: Day, total: real, g: Granularity)
    requires start < end && IsStraightLine(periods, start, end, total, g)
    requires YearOf(start) >= 100
    ensures |periods| == PeriodIndex(g, end) - PeriodIndex(g, start) + 1
  {
    hide EndOf, PeriodIndex, YearOf, LastTakesRemainder, DailyRate;
    var k := |periods| - 1;
    PeriodNumber(periods, start, end, g, k);
    PeriodWithinCalendar(periods, start, end, total, g, k);
  }

  // ---------- The last day of a usage schedule ----------

  /** The first day from `start` on whose year `new Date` can read as one of the 1900s. */
  function GapStart(start: Day): Day {
    if YearOf(start) < 0 then DayFromYear(0) else start
  }

  /** A period that starts in the years 0 to 99 runs past `end`. */
  predicate RunsOver(start: Day, end: Day, g: Granularity) {
    YearOf(start) <= 99 && GapStart(start) < end <= EndOf(g, GapStart(start))
  }

  lemma {:induction false} StartsAfter(periods: seq<SchedulePeriod>, start: Day, cap: Day, g: Granularity, i: nat)
    requires Chained(periods, start, cap, g) && i < |periods|
    ensures periods[i].periodStart >= start
    ensures i > 0 ==> periods[i].periodStart == EndOf(g, periods[i - 1].periodStart) + 1 <= cap
  {
    assert RunsToEnd(periods[i], cap, g);
    if i > 0 {
      StartsAfter(periods, start, cap, g, i - 1);
      assert RunsToEnd(periods[i - 1], cap, g);
      assert periods[i - 1 + 1].periodStart == periods[i - 1].periodEnd + 1;
    }
  }

  /** Only one period can start in the years 0 to 99, and it starts at the gap. */
  lemma TwoDigitPeriod(periods: seq<SchedulePeriod>, start: Day, cap: Day, g: Granularity, i: nat)
    requires Chained(periods, start, cap, g) && i < |periods| && TwoDigitYear(YearOf(periods[i].periodStart))
    ensures YearOf(start) <= 99 && periods[i].periodStart == GapStart(start)
  {
    hide EndOf, YearOf, Chained, DayFromYear;
    StartsAfter(periods, start, cap, g, i);
    YearMonotone(start, periods[i].periodStart);
    if i == 0 {
      FirstStart(periods, start, cap, g);
    } else {
      StartsAfter(periods, start, cap, g, i - 1);
      var before := periods[i - 1].periodStart;
      YearMonotone(start, before);
      EndOfNotBefore(g, before);
      YearMonotone(before, periods[i].periodStart);
      if TwoDigitYear(YearOf(before)) {
        TwoDigitEndIsLate(g, before);
        YearMonotone(EndOf(g, before), periods[i].periodStart);
      }
      EndOfBeforeYearZero(g, before);
    }
  }

  lemma FirstStart(periods: seq<SchedulePeriod>, start: Day, cap: Day, g: Granularity)
    requires Chained(periods, start, cap, g) && periods != []
    ensures periods[0].periodStart == start
  {
  }

  lemma TwoDigitEndIsLate(g: Granularity, d: Day)
    requires TwoDigitYear(YearOf(d))
    ensures YearOf(EndOf(g, d)) >= 1900
  {
    EndOfMeaning(g, d);
    MonthEdges(1900 + YearOf(d), NextMonth(g, d));
  }

  /** A term that the gap runs over is covered by the period that starts there. */
  lemma GapPeriodIsLast(periods: seq<SchedulePeriod>, start: Day, end: Day, g: Granularity)
    requires Chained(periods, start, end, g) && periods != []
    requires start < end && periods[|periods| - 1].periodEnd >= end - 1 && RunsOver(start, end, g)
    ensures periods[|periods| - 1].periodEnd == end
  {
    hide EndOf, YearOf, Chained, DayFromYear, GapStart;
    var gap := GapStart(start);
    var k, last := PeriodAt(periods, gap, 0), |periods| - 1;
    GapNotBefore(start);
    FirstStart(periods, start, end, g);
    PeriodAtContains(periods, start, end, g, gap, 0);
    PeriodStartsAtGap(periods, start, end, g, k);
    ChainEnds(periods, start, end, g, k);
    ChainEnds(periods, start, end, g, last);
    if k < last {
      ChainAscends(periods, start, end, g, k, last);
    }
  }

  lemma PeriodStartsAtGap(periods: seq<SchedulePeriod>, start: Day, cap: Day, g: Granularity, i: nat)
    requires Chained(periods, start, cap, g) && i < |periods|
    requires YearOf(start) <= 99 && Contains(periods[i], GapStart(start))
    ensures periods[i].periodStart == GapStart(start)
  {
    hide EndOf, YearOf, Chained, DayFromYear;
    StartsAfter(periods, start, cap, g, i);
    ChainEnds(periods, start, cap, g, i);
    if periods[i].periodStart < GapStart(start) {
      YearBefore(periods[i].periodStart, 0);
      EndOfBeforeYearZero(g, periods[i].periodStart);
    }
  }

  lemma ChainEnds(periods: seq<SchedulePeriod>, start: Day, cap: Day, g: Granularity, i: nat)
    requires Chained(periods, start, cap, g) && i < |periods|
    ensures periods[i].periodStart <= periods[i].periodEnd <= cap
    ensures periods[i].periodEnd <= EndOf(g, periods[i].periodStart)
    ensures cap <= EndOf(g, periods[i].periodStart) ==> periods[i].periodEnd == cap
  {
    hide EndOf;
    assert RunsToEnd(periods[i], cap, g);
  }

  lemma GapNotBefore(start: Day)
    requires YearOf(start) <= 99
    ensures start <= GapStart(start)
  {
    hide YearOf, DayFromYear;
    if YearOf(start) < 0 {
      YearsApart(YearOf(start) + 1, 0);
    }
  }

  lemma YearBefore(d: Day, year: int)
    requires d < DayFromYear(year)
    ensures YearOf(d) < year
  {
    hide YearOf, DayFromYear;
    if YearOf(d) >= year {
      YearsApart(year, YearOf(d));
    }
  }

  /**
   * The loop for usage stops one step earlier (`<`, not `<=`): the last day of the term is left
   * out exactly when the day before it ends a month (quarter) and is not inside a period that
   * runs over from the years 0 to 99.
   */
  lemma UsageCoversEnd(periods: seq<SchedulePeriod>, start: Day, end: Day, g: Granularity)
    requires start < end && IsUsagePlaceholders(periods, start, end, g)
    ensures periods[|periods| - 1].periodEnd ==
      (if EndOf(g, end - 1) == end - 1 && !RunsOver(start, end, g) then end - 1 else end)
  {
    hide EndOf, YearOf, RunsOver, GapStart;
    var k := |periods| - 1;
    var last := periods[k];
    assert RunsToEnd(last, end, g);
    if RunsOver(start, end, g) {
      GapPeriodIsLast(periods, start, end, g);
    } else if last.periodEnd == end - 1 {
      EndOfTwice(g, last.periodStart);
    } else {
      if TwoDigitYear(YearOf(last.periodStart)) {
        TwoDigitPeriod(periods, start, end, g, k);
        RunsOverAtGap(start, end, g);
      } else {
        EndOfWithin(g, last.periodStart, end - 1);
      }
    }
  }

  lemma RunsOverAtGap(start: Day, end: Day, g: Granularity)
    requires YearOf(start) <= 99 && GapStart(start) < end
    ensures RunsOver(start, end, g) <==> end <= EndOf(g, GapStart(start))
  {
  }

  /** From 15 January to 1 February of any year from 100 on, the schedule ends on 31 January. */
  lemma UsageLeavesOutExample(periods: seq<SchedulePeriod>, year: int)
    requires year >= 100 && IsUsagePlaceholders(periods, NewDate(year, 0, 15), NewDate(year, 1, 1), Monthly)
    ensures periods != [] && periods[|periods| - 1].periodEnd == NewDate(year, 0, 31) == NewDate(year, 1, 1) - 1
  {
    hide EndOf, YearOf, MonthOf, DayFromYear;
    var start, end := NewDate(year, 0, 15), NewDate(year, 1, 1);
    FieldsOfMakeDay(year, 0, 15);
    FieldsOfMakeDay(year, 0, 31);
    EndOfMeaning(Monthly, end - 1);
    UsageCoversEnd(periods, start, end, Monthly);
  }

  // ---------- Money ----------

  lemma RateOverTerm(total: real, days: int)
    requires days != 0
    ensures Earned(total / days as real, days) == total
  {
  }

  /** The exact shares of the periods add up to the total. */
  lemma DaySharesTotal(periods: seq<SchedulePeriod>, start: Day, end: Day, total: real, g: Granularity)
    requires start < end && IsStraightLine(periods, start, end, total, g)
    ensures Sum(DayShares(periods, DailyRate(start, end, total))) == total
  {
    hide EndOf, LastTakesRemainder, Sum, PendingStraightLine, DayShares, Earned;
    ChainDays(periods, start, end, g);
    SharesOfDays(periods, DailyRate(start, end, total));
    RateOverTerm(total, end - start);
    assert Earned(DailyRate(start, end, total), end - start) == total;
  }

  lemma EarnedSplits(rate: real, days: int, more: int)
    ensures Earned(rate, days + more) == Earned(rate, days) + Earned(rate, more)
  {
  }

  lemma {:induction false} DaysPrefix(periods: seq<SchedulePeriod>, shares: seq<real>, rate: real)
    requires |shares| == |periods|
    requires forall i :: 0 <= i < |periods| ==> shares[i] == Earned(rate, periods[i].periodDays)
    ensures Sum(shares) == Earned(rate, TotalDays(periods))
  {
    if periods != [] {
      var k := |periods| - 1;
      DaysPrefix(periods[..k], shares[..k], rate);
      EarnedSplits(rate, TotalDays(periods[..k]), periods[k].periodDays);
    }
  }

  lemma SharesOfDays(periods: seq<SchedulePeriod>, rate: real)
    requires periods != []
    ensures Sum(DayShares(periods, rate)) == Earned(rate, TotalDays(periods) - 1)
  {
    var k := |periods| - 1;
    DaysPrefix(periods[..k], DayShares(periods, rate)[..k], rate);
    EarnedSplits(rate, TotalDays(periods[..k]), periods[k].periodDays - 1);
    hide Earned;
  }

  /** The scheduled amounts add up to the rounded total: to the cent for a whole-cent total. */
  lemma StraightLineConserves(periods: seq<SchedulePeriod>, start: Day, end: Day, total: real, g: Granularity)
    requires start < end && IsStraightLine(periods, start, end, total, g)
    ensures AllCents(Amounts(periods))
    ensures Sum(Amounts(periods)) == Round2(total)
    ensures IsCents(total) ==> Sum(Amounts(periods)) == total
  {
    SplitConserves(Amounts(periods), DayShares(periods, DailyRate(start, end, total)), total);
  }

  /**
   * Each period but the last is within half a cent of rate times days; the last of n periods is
   * within n/2 cents, for a whole-cent total (n-1)/2 cents, of rate times one day less than it has.
   */
  lemma StraightLineRounding(periods: seq<SchedulePeriod>, start: Day, end: Day, total: real, g: Granularity)
    requires start < end && IsStraightLine(periods, start, end, total, g)
    ensures var (rate, n) := (DailyRate(start, end, total), |periods|);
      && (forall i :: 0 <= i < n - 1 ==>
            Abs(periods[i].scheduledAmount - Earned(rate, periods[i].periodDays)) <= 0.005)
      && var drift := Abs(periods[n - 1].scheduledAmount - Earned(rate, periods[n - 1].periodDays - 1));
         && drift <= 0.005 * n as real
         && (IsCents(total) ==> drift <= 0.005 * (n - 1) as real)
  {
    hide EndOf, Sum, PendingStraightLine, LastTakesRemainder, Abs, Earned, DailyRate;
    var rate := DailyRate(start, end, total);
    var amounts, shares := Amounts(periods), DayShares(periods, rate);
    DaySharesTotal(periods, start, end, total, g);
    SplitBounds(amounts, shares, total);
    forall i | 0 <= i < |periods| - 1
      ensures Abs(periods[i].scheduledAmount - Earned(rate, periods[i].periodDays)) <= 0.005
    {
      assert Abs(amounts[i] - shares[i]) <= 0.005;
    }
  }

  /** Rate times days of every period, the last one included. */
  function FullShares(periods: seq<SchedulePeriod>, rate: real): (shares: seq<real>)
    ensures |shares| == |periods|
    ensures forall i :: 0 <= i < |periods| ==> shares[i] == Earned(rate, periods[i].periodDays)
  {
    seq(|periods|, i requires 0 <= i < |periods| => Earned(rate, periods[i].periodDays))
  }

  /**
   * The rate divides by one day less than the periods have, so rate times days over all periods
   * comes to the total and one more day: it gives the total only when that is zero.
   */
  lemma FullSharesOvershoot(periods: seq<SchedulePeriod>, start: Day, end: Day, total: real, g: Granularity)
    requires start < end && IsStraightLine(periods, start, end, total, g)
    ensures var rate := DailyRate(start, end, total);
      && Sum(FullShares(periods, rate)) == total + rate
      && (Sum(FullShares(periods, rate)) == total <==> total == 0.0)
  {
    hide EndOf, LastTakesRemainder, Sum, PendingStraightLine, Earned;
    var rate := DailyRate(start, end, total);
    ChainDays(periods, start, end, g);
    DaysPrefix(periods, FullShares(periods, rate), rate);
    EarnedSplits(rate, end - start, 1);
    RateOverTerm(total, end - start);
    OneDay(rate, total, end - start);
  }

  lemma OneDay(rate: real, total: real, days: int)
    requires days > 0 && rate == total / days as real
    ensures Earned(rate, 1) == rate
    ensures rate == 0.0 <==> total == 0.0
  {
    RateOverTerm(total, days);
  }

  /** Two chains over the same term have the same periods. */
  lemma SamePeriods(a: seq<SchedulePeriod>, b: seq<SchedulePeriod>, start: Day, end: Day, g: Granularity)
    requires Chained(a, start, end, g) && Chained(b, start, end, g) && a != [] && b != []
    requires a[|a| - 1].periodEnd == b[|b| - 1].periodEnd == end
    ensures |a| == |b|
    ensures forall i :: 0 <= i < |a| ==>
      a[i].periodStart == b[i].periodStart && a[i].periodEnd == b[i].periodEnd && a[i].periodDays == b[i].periodDays
  {
    hide EndOf, Chained;
    SameDates(a, b, start, end, g, if |a| <= |b| then |a| - 1 else |b| - 1);
    ChainEnds(a, start, end, g, |a| - 1);
    ChainEnds(b, start, end, g, |b| - 1);
    if |a| < |b| { ChainAscends(b, start, end, g, |a| - 1, |b| - 1); }
    if |b| < |a| { ChainAscends(a, start, end, g, |b| - 1, |a| - 1); }
  }

  /** The description determines the schedule. */
  lemma StraightLineUnique(
    a: seq<SchedulePeriod>, b: seq<SchedulePeriod>, start: Day, end: Day, total: real, g: Granularity)
    requires start < end && IsStraightLine(a, start, end, total, g) && IsStraightLine(b, start, end, total, g)
    ensures a == b
  {
    hide EndOf, Sum, Earned, DailyRate, Chained;
    SamePeriods(a, b, start, end, g);
    var n := |a|;
    var rate := DailyRate(start, end, total);
    forall i | 0 <= i < n - 1 ensures a[i] == b[i] {
      assert Amounts(a)[i] == Round2(DayShares(a, rate)[i]);
      assert Amounts(b)[i] == Round2(DayShares(b, rate)[i]);
    }
    assert Amounts(a)[..n - 1] == Amounts(b)[..n - 1];
    assert a[n - 1] == b[n - 1];
  }

  lemma {:induction false} SameDates(
    a: seq<SchedulePeriod>, b: seq<SchedulePeriod>, start: Day, cap: Day, g: Granularity, k: nat)
    requires Chained(a, start, cap, g) && Chained(b, start, cap, g) && k < |a| && k < |b|
    ensures forall i :: 0 <= i <= k ==>
      a[i].periodStart == b[i].periodStart && a[i].periodEnd == b[i].periodEnd && a[i].periodDays == b[i].periodDays
  {
    hide EndOf;
    if k > 0 {
      SameDates(a, b, start, cap, g, k - 1);
      assert a[k].periodStart == a[k - 1].periodEnd + 1 && b[k].periodStart == b[k - 1].periodEnd + 1;
    }
    assert RunsToEnd(a[k], cap, g) && RunsToEnd(b[k], cap, g);
  }

  // ---------- The dates of the periods ----------

  /** The fields of the last day of the month or quarter of a day in the years from 100 on. */
  ghost predicate EndsMonth(g: Granularity, d: Day, e: Day) {
    && YearOf(e) == YearOf(d)
    && MonthOf(e) == (if g.Monthly? then MonthOf(d)
                      else if MonthOf(d) <= 2 then 2
                      else if MonthOf(d) <= 5 then 5
                      else if MonthOf(d) <= 8 then 8 else 11)
    && DateOf(e) == LastDate(YearOf(e), MonthOf(e))
  }

  lemma EndOfEndsMonth(g: Granularity, d: Day)
    requires YearOf(d) >= 100
    ensures EndsMonth(g, d, EndOf(g, d))
  {
    EndOfMonthIs(d);
    EndOfQuarterIs(d);
    hide EndOf, YearOf, MonthOf, DateOf;
  }

  /**
   * From year 100 on, every period but the last ends on the last date of the month (quarter) that it
   * starts in, and every period but the first starts on the day after.
   */
  lemma PeriodDates(periods: seq<SchedulePeriod>, start: Day, end: Day, total: real, g: Granularity, i: nat)
    requires start < end && IsStraightLine(periods, start, end, total, g) && i < |periods|
    requires YearOf(start) >= 100
    ensures i < |periods| - 1 ==> EndsMonth(g, periods[i].periodStart, periods[i].periodEnd)
    ensures periods[i].periodStart == if i == 0 then start else periods[i - 1].periodEnd + 1
  {
    hide EndOf, YearOf, EndsMonth, LastTakesRemainder, DailyRate, PeriodIndex;
    PeriodNumber(periods, start, end, g, i);
    EndOfEndsMonth(g, periods[i].periodStart);
    assert RunsToEnd(periods[i], end, g);
    if i < |periods| - 1 {
      ChainEnds(periods, start, end, g, i + 1);
      StartsAfter(periods, start, end, g, i + 1);
    }
  }

  // ---------- Schedules of a single period ----------

  /** A rate that, over the days, comes to the total but for its rounding to six decimals. */
  ghost predicate RateOf(rate: real, total: real, days: int) {
    days > 0 && Round6(total / days as real) == rate
  }

  /**
   * A milestone is one pending period over the term with the whole amount deferred, an as-invoiced
   * obligation one recognised day at its start, a term that does not end after its start one pending day.
   */
  lemma SinglePeriods(start: Day, end: Day, total: real)
    ensures var s := GenerateMilestoneSchedule(start, end, total);
      && |s| == 1 && s[0].periodStart == start && s[0].periodEnd == end
      && s[0].scheduledAmount == s[0].deferredAmount == Round2(total) && s[0].recognizedAmount == 0.0
      && s[0].recognitionMethod == Milestone && s[0].status == Pending
      && (start < end ==> s[0].periodDays == end - start) && (end <= start ==> s[0].periodDays == 1)
      && RateOf(s[0].dailyRate, total, s[0].periodDays)
    ensures var s := GenerateAsInvoicedSchedule(start, total);
      && |s| == 1 && s[0].periodStart == s[0].periodEnd == start
      && s[0].scheduledAmount == s[0].recognizedAmount == Round2(total) && s[0].deferredAmount == 0.0
      && s[0].recognitionMethod == AsInvoiced && s[0].status == Recognized
      && s[0].periodDays == 1 && RateOf(s[0].dailyRate, total, 1)
    ensures var p := SameDayPeriod(start, end, total);
      && p.periodStart == start && p.periodEnd == end
      && p.scheduledAmount == p.deferredAmount == Round2(total) && p.recognizedAmount == 0.0
      && p.recognitionMethod == StraightLine && p.status == Pending
      && p.periodDays == 1 && RateOf(p.dailyRate, total, 1)
  {
    hide Round2, Round6;
    assert total / 1 as real == total;
  }
}
