/** Deferred revenue balances by period end (packages/revrec/src/deferred.ts). */
module Deferred {
  import opened Wrappers
  import opened Sequences
  import opened Money
  import opened Calendar
  import opened RevRecTypes
  import opened Recognition
  import Sorting

  // ---------- Period ends and event windows ----------

  function PeriodEnds(schedules: seq<SchedulePeriod>): (ends: seq<Day>)
    ensures |ends| == |schedules|
    ensures forall i :: 0 <= i < |schedules| ==> ends[i] == schedules[i].periodEnd
  {
    seq(|schedules|, i requires 0 <= i < |schedules| => schedules[i].periodEnd)
  }

  function Itself(d: Day): int {
    d
  }

  /** The distinct period ends in chronological order. */
  function UniqueEnds(schedules: seq<SchedulePeriod>): seq<Day> {
    Sorting.StableSort(Distinct(PeriodEnds(schedules)), Itself)
  }

  lemma UniqueEndsAscend(schedules: seq<SchedulePeriod>)
    ensures var ends := UniqueEnds(schedules);
      && (forall i, j :: 0 <= i < j < |ends| ==> ends[i] < ends[j])
      && (forall d :: d in ends <==> d in PeriodEnds(schedules))
      && (schedules != [] ==> ends != [])
  {
    var distinct := Distinct(PeriodEnds(schedules));
    DistinctMembers(PeriodEnds(schedules));
    Sorting.SortStrict(distinct, Itself);
    Sorting.SortContents(distinct, Itself);
    var ends := UniqueEnds(schedules);
    forall i, j | 0 <= i < j < |ends| ensures ends[i] < ends[j] {
      assert Itself(ends[i]) < Itself(ends[j]);
    }
    if schedules != [] {
      assert PeriodEnds(schedules)[0] in PeriodEnds(schedules);
    }
  }

  predicate IsAdjustment(e: RecognitionEvent) {
    e.eventType == Adjustment || e.eventType == Cancellation || e.eventType == Amendment
  }

  predicate IsPerformance(e: RecognitionEvent) {
    e.eventType == ScheduledEvent || e.eventType == UsageEvent || e.eventType == MilestoneEvent
  }

  /** The events of period k: up to the first end, or after the previous end and up to this one. */
  function InWindow(ends: seq<Day>, k: nat): RecognitionEvent -> bool
    requires k < |ends|
  {
    if k == 0 then (e: RecognitionEvent) => e.eventDate <= ends[0]
    else (e: RecognitionEvent) => ends[k - 1] < e.eventDate <= ends[k]
  }

  function AdjustmentInWindow(ends: seq<Day>, k: nat): RecognitionEvent -> bool
    requires k < |ends|
  {
    (e: RecognitionEvent) => InWindow(ends, k)(e) && IsAdjustment(e)
  }

  function PerformanceInWindow(ends: seq<Day>, k: nat): RecognitionEvent -> bool
    requires k < |ends|
  {
    (e: RecognitionEvent) => InWindow(ends, k)(e) && IsPerformance(e)
  }

  function PerformedBy(date: Day): RecognitionEvent -> bool {
    (e: RecognitionEvent) => e.eventDate <= date && IsPerformance(e)
  }

  // ---------- The rollforward ----------

  /** The unrounded deferred balance at a date: the price less everything performed by then. */
  function DeferredAt(events: seq<RecognitionEvent>, total: real, date: Day): real {
    total - SumWhere(events, PerformedBy(date))
  }

  function BalanceAt(ends: seq<Day>, k: nat, events: seq<RecognitionEvent>, total: real): DeferredBalance
    requires k < |ends|
  {
    DeferredBalance(
      ends[k],
      Round2(if k == 0 then total else DeferredAt(events, total, ends[k - 1])),
      0.0,
      Round2(SumWhere(events, InWindow(ends, k))),
      Round2(SumWhere(events, AdjustmentInWindow(ends, k))),
      Round2(DeferredAt(events, total, ends[k])))
  }

  ghost predicate IsRollforward(
    balances: seq<DeferredBalance>, schedules: seq<SchedulePeriod>, events: seq<RecognitionEvent>, total: real)
  {
    var ends := UniqueEnds(schedules);
    && |balances| == |ends|
    && forall k :: 0 <= k < |ends| ==> balances[k] == BalanceAt(ends, k, events, total)
  }

  /** Recognised less adjustments in a window is what was performed in it. */
  lemma WindowStep(ends: seq<Day>, k: nat, events: seq<RecognitionEvent>, total: real)
    requires k < |ends| && forall i, j :: 0 <= i < j < |ends| ==> ends[i] < ends[j]
    ensures var opening := if k == 0 then total else DeferredAt(events, total, ends[k - 1]);
      opening - SumWhere(events, InWindow(ends, k)) + SumWhere(events, AdjustmentInWindow(ends, k)) ==
      DeferredAt(events, total, ends[k])
  {
    SumWhereSplits(events, InWindow(ends, k), AdjustmentInWindow(ends, k), PerformanceInWindow(ends, k));
    if k == 0 {
      SumWhereSame(events, PerformanceInWindow(ends, 0), PerformedBy(ends[0]));
    } else {
      SumWhereSplits(events, PerformedBy(ends[k]), PerformedBy(ends[k - 1]), PerformanceInWindow(ends, k));
    }
  }

  method ComputeDeferredBalances(schedules: seq<SchedulePeriod>, events: seq<RecognitionEvent>, total: real)
    returns (balances: seq<DeferredBalance>)
    ensures IsRollforward(balances, schedules, events, total)
  {
    hide Round2, SumWhere, DeferredAt, InWindow, AdjustmentInWindow, UniqueEnds;
    balances := [];
    if |schedules| == 0 {
      NoEnds(schedules);
      return [];
    }
    var periodEnds := UniqueEnds(schedules);
    UniqueEndsAscend(schedules);
    RoundZero();
    var runningBalance := total;
    for i := 0 to |periodEnds|
      invariant |balances| == i
      invariant runningBalance == if i == 0 then total else DeferredAt(events, total, periodEnds[i - 1])
      invariant forall k :: 0 <= k < i ==> balances[k] == BalanceAt(periodEnds, k, events, total)
    {
      var periodEnd := periodEnds[i];
      var additions := 0.0;
      var recognizedInPeriod := SumWhere(events, InWindow(periodEnds, i));
      var adjustments := SumWhere(events, AdjustmentInWindow(periodEnds, i));
      var openingBalance := runningBalance;
      var closingBalance := openingBalance + additions - recognizedInPeriod + adjustments;
      WindowStep(periodEnds, i, events, total);
      balances := balances +
        [DeferredBalance(periodEnd, Round2(openingBalance), Round2(additions), Round2(recognizedInPeriod),
                         Round2(adjustments), Round2(closingBalance))];
      runningBalance := closingBalance;
    }
  }

  lemma NoEnds(schedules: seq<SchedulePeriod>)
    requires schedules == []
    ensures UniqueEnds(schedules) == []
  {
  }

  lemma RoundZero()
    ensures Round2(0.0) == 0.0
  {
  }

  /** Everything but adjustments, cancellations and amendments. */
  function NoAdjustingType(): RecognitionEvent -> bool {
    (e: RecognitionEvent) =>
      e.eventType != Adjustment && e.eventType != Cancellation && e.eventType != Amendment
  }

  /** Adjustment, cancellation and amendment events are counted twice with opposite signs: no balance moves. */
  lemma {:induction false} AdjustmentsAreInert(events: seq<RecognitionEvent>, total: real, date: Day)
    ensures DeferredAt(events, total, date) == DeferredAt(Filter(NoAdjustingType(), events), total, date)
  {
    if events != [] {
      var k := |events| - 1;
      AdjustmentsAreInert(events[..k], total, date);
      var earlier := Filter(NoAdjustingType(), events[..k]);
      if IsPerformance(events[k]) {
        assert (earlier + [events[k]])[..|earlier|] == earlier;
      }
    }
  }

  /** Every opening balance is the previous closing balance, and the first is the price. */
  lemma RollforwardChains(
    balances: seq<DeferredBalance>, schedules: seq<SchedulePeriod>, events: seq<RecognitionEvent>, total: real)
    requires IsRollforward(balances, schedules, events, total)
    ensures balances != [] ==> balances[0].openingBalance == Round2(total)
    ensures forall k :: 0 < k < |balances| ==> balances[k].openingBalance == balances[k - 1].closingBalance
    ensures forall i, j :: 0 <= i < j < |balances| ==> balances[i].periodEnd < balances[j].periodEnd
  {
    hide Round2, SumWhere, DeferredAt, UniqueEnds;
    UniqueEndsAscend(schedules);
    var ends := UniqueEnds(schedules);
    forall k | 0 < k < |balances| ensures balances[k].openingBalance == balances[k - 1].closingBalance {
      assert balances[k] == BalanceAt(ends, k, events, total);
      assert balances[k - 1] == BalanceAt(ends, k - 1, events, total);
    }
  }

  /** Balances depend on performance events alone. */
  lemma ClosingIgnoresAdjustments(
    balances: seq<DeferredBalance>, without: seq<DeferredBalance>,
    schedules: seq<SchedulePeriod>, events: seq<RecognitionEvent>, total: real)
    requires IsRollforward(balances, schedules, events, total)
    requires IsRollforward(without, schedules, Filter(NoAdjustingType(), events), total)
    ensures |balances| == |without|
    ensures forall k :: 0 <= k < |balances| ==>
      balances[k].openingBalance == without[k].openingBalance && balances[k].closingBalance == without[k].closingBalance
  {
    hide Round2, DeferredAt, UniqueEnds, SumWhere;
    var ends := UniqueEnds(schedules);
    forall k | 0 <= k < |balances|
      ensures balances[k].openingBalance == without[k].openingBalance
      ensures balances[k].closingBalance == without[k].closingBalance
    {
      AdjustmentsAreInert(events, total, ends[k]);
      if k > 0 { AdjustmentsAreInert(events, total, ends[k - 1]); }
    }
  }

  // ---------- Validating a rollforward ----------

  datatype RollforwardError = Mismatch(period: nat) | Discontinuity(period: nat)

  function Expected(b: DeferredBalance): real {
    b.openingBalance + b.additions - b.recognized + b.adjustments
  }

  predicate StepOk(balances: seq<DeferredBalance>, i: nat, tolerance: real)
    requires i < |balances|
  {
    Abs(Expected(balances[i]) - balances[i].closingBalance) <= tolerance
  }

  predicate ContinuityOk(balances: seq<DeferredBalance>, i: nat, tolerance: real)
    requires i < |balances|
  {
    i > 0 ==> Abs(balances[i - 1].closingBalance - balances[i].openingBalance) <= tolerance
  }

  /** The complaints about the first n periods, in order. */
  function RollforwardErrors(balances: seq<DeferredBalance>, n: nat, tolerance: real): seq<RollforwardError>
    requires n <= |balances|
  {
    if n == 0 then []
    else
      RollforwardErrors(balances, n - 1, tolerance) +
      (if StepOk(balances, n - 1, tolerance) then [] else [Mismatch(n - 1)]) +
      (if ContinuityOk(balances, n - 1, tolerance) then [] else [Discontinuity(n - 1)])
  }

  method ValidateBalanceRollforward(balances: seq<DeferredBalance>, tolerance: real)
    returns (valid: bool, errors: seq<RollforwardError>)
    ensures errors == RollforwardErrors(balances, |balances|, tolerance)
    ensures valid <==> RollsForward(balances, tolerance)
  {
    errors := [];
    for i := 0 to |balances|
      invariant errors == RollforwardErrors(balances, i, tolerance)
    {
      var balance := balances[i];
      var expected := balance.openingBalance + balance.additions - balance.recognized + balance.adjustments;
      if Abs(expected - balance.closingBalance) > tolerance {
        errors := errors + [Mismatch(i)];
      }
      if i > 0 {
        var prevBalance := balances[i - 1];
        if Abs(prevBalance.closingBalance - balance.openingBalance) > tolerance {
          errors := errors + [Discontinuity(i)];
        }
      }
    }
    NoErrorsMeansValid(balances, |balances|, tolerance);
    valid := |errors| == 0;
  }

  ghost predicate RollsForward(balances: seq<DeferredBalance>, tolerance: real) {
    forall i :: 0 <= i < |balances| ==> StepOk(balances, i, tolerance) && ContinuityOk(balances, i, tolerance)
  }

  lemma {:induction false} NoErrorsMeansValid(balances: seq<DeferredBalance>, n: nat, tolerance: real)
    requires n <= |balances|
    ensures RollforwardErrors(balances, n, tolerance) == [] <==>
      forall i :: 0 <= i < n ==> StepOk(balances, i, tolerance) && ContinuityOk(balances, i, tolerance)
  {
    hide StepOk, ContinuityOk;
    if n > 0 {
      NoErrorsMeansValid(balances, n - 1, tolerance);
    }
  }

  /** Additions less recognised plus adjustments over the periods. */
  function Flows(balances: seq<DeferredBalance>): real {
    if balances == [] then 0.0
    else
      var b := balances[|balances| - 1];
      Flows(balances[..|balances| - 1]) + b.additions - b.recognized + b.adjustments
  }

  /** Accepting n balances bounds the end-to-end error by 2n - 1 tolerances. */
  lemma {:induction false} ValidatorSound(balances: seq<DeferredBalance>, tolerance: real)
    requires balances != [] && RollsForward(balances, tolerance)
    ensures var n := |balances|;
      Abs(balances[n - 1].closingBalance - (balances[0].openingBalance + Flows(balances))) <=
      tolerance * (2 * n - 1) as real
  {
    hide Abs, Expected;
    var k := |balances| - 1;
    var front, b := balances[..k], balances[k];
    assert StepOk(balances, k, tolerance) && ContinuityOk(balances, k, tolerance);
    assert Flows(balances) == Flows(front) + b.additions - b.recognized + b.adjustments;
    if k == 0 {
      FirstError(b, tolerance);
    } else {
      forall i | 0 <= i < k ensures StepOk(front, i, tolerance) && ContinuityOk(front, i, tolerance) {
        assert StepOk(balances, i, tolerance) && ContinuityOk(balances, i, tolerance);
      }
      ValidatorSound(front, tolerance);
      OddMultiple(tolerance, k);
      ErrorsAdd(balances[k - 1].closingBalance, balances[0].openingBalance + Flows(front),
                tolerance * (2 * k - 1) as real, b, tolerance);
    }
  }

  lemma FirstError(b: DeferredBalance, tolerance: real)
    requires Abs(Expected(b) - b.closingBalance) <= tolerance
    ensures Abs(b.closingBalance - (b.openingBalance + (0.0 + b.additions - b.recognized + b.adjustments))) <= tolerance
  {
  }

  lemma ErrorsAdd(closing: real, expected: real, bound: real, b: DeferredBalance, tolerance: real)
    requires Abs(closing - expected) <= bound
    requires Abs(closing - b.openingBalance) <= tolerance
    requires Abs(Expected(b) - b.closingBalance) <= tolerance
    ensures Abs(b.closingBalance - (expected + b.additions - b.recognized + b.adjustments)) <= bound + 2.0 * tolerance
  {
  }

  lemma OddMultiple(tolerance: real, k: nat)
    ensures tolerance * (2 * (k + 1) - 1) as real == tolerance * (2 * k - 1) as real + 2.0 * tolerance
  {
  }

  lemma CentsWithin(x: real)
    requires IsCents(x) && -0.02 < x < 0.02
    ensures Abs(x) <= 0.01
  {
    var n := (x * 100.0).Floor;
    assert -2 < n < 2;
  }

  /** Four roundings of a balanced step are off by less than two cents, so by at most one. */
  lemma RoundedStep(opening: real, recognized: real, adjustments: real, closing: real)
    requires closing == opening - recognized + adjustments
    ensures Abs(Round2(opening) + 0.0 - Round2(recognized) + Round2(adjustments) - Round2(closing)) <= 0.01
  {
    var error := Round2(opening) - Round2(recognized) + Round2(adjustments) - Round2(closing);
    CentsClosed(Round2(opening), Round2(recognized));
    CentsClosed(Round2(opening) - Round2(recognized), Round2(adjustments));
    CentsClosed(Round2(opening) - Round2(recognized) + Round2(adjustments), Round2(closing));
    CentsWithin(error);
  }

  lemma StepOfRollforward(
    balances: seq<DeferredBalance>, schedules: seq<SchedulePeriod>, events: seq<RecognitionEvent>, total: real, k: nat)
    requires IsRollforward(balances, schedules, events, total) && k < |balances|
    ensures StepOk(balances, k, 0.01)
    ensures IsCents(total) && CentEvents(events) ==> StepOk(balances, k, 0.0)
  {
    hide Round2, SumWhere, UniqueEnds, IsCents, InWindow, AdjustmentInWindow, DeferredAt;
    var ends := UniqueEnds(schedules);
    UniqueEndsAscend(schedules);
    WindowStep(ends, k, events, total);
    var opening := if k == 0 then total else DeferredAt(events, total, ends[k - 1]);
    var recognized := SumWhere(events, InWindow(ends, k));
    var adjustments := SumWhere(events, AdjustmentInWindow(ends, k));
    RoundedStep(opening, recognized, adjustments, DeferredAt(events, total, ends[k]));
    if IsCents(total) && CentEvents(events) {
      SumWhereCents(events, InWindow(ends, k));
      SumWhereCents(events, AdjustmentInWindow(ends, k));
      DeferredCents(events, total, ends[k]);
      if k > 0 { DeferredCents(events, total, ends[k - 1]); }
      RoundShift(0.0, opening);
      RoundShift(0.0, recognized);
      RoundShift(0.0, adjustments);
      RoundShift(0.0, DeferredAt(events, total, ends[k]));
    }
  }

  lemma DeferredCents(events: seq<RecognitionEvent>, total: real, date: Day)
    requires IsCents(total) && CentEvents(events)
    ensures IsCents(DeferredAt(events, total, date))
  {
    SumWhereCents(events, PerformedBy(date));
    CentsClosed(total, SumWhere(events, PerformedBy(date)));
  }

  /**
   * Every computed rollforward is accepted at the default tolerance of one cent, whatever the
   * amounts, and at zero tolerance when they are whole cents.
   */
  lemma ComputedRollforwardValidates(
    balances: seq<DeferredBalance>, schedules: seq<SchedulePeriod>, events: seq<RecognitionEvent>, total: real)
    requires IsRollforward(balances, schedules, events, total)
    ensures RollsForward(balances, 0.01)
    ensures IsCents(total) && CentEvents(events) ==> RollsForward(balances, 0.0)
  {
    RollforwardChains(balances, schedules, events, total);
    hide IsRollforward, IsCents, StepOk;
    forall k | 0 <= k < |balances|
      ensures StepOk(balances, k, 0.01) && ContinuityOk(balances, k, 0.0) && ContinuityOk(balances, k, 0.01)
      ensures IsCents(total) && CentEvents(events) ==> StepOk(balances, k, 0.0)
    {
      StepOfRollforward(balances, schedules, events, total, k);
    }
  }

  // ---------- The balance as of a date ----------

  function EndingBy(date: Day): DeferredBalance -> bool {
    (b: DeferredBalance) => b.periodEnd <= date
  }

  function LatestFirst(b: DeferredBalance): int {
    -b.periodEnd
  }

  function GetBalanceAsOf(balances: seq<DeferredBalance>, asOfDate: Day): Option<DeferredBalance> {
    var applicable := Sorting.StableSort(Filter(EndingBy(asOfDate), balances), LatestFirst);
    if |applicable| > 0 then Some(applicable[0]) else None
  }

  /** It finds a balance exactly when some period has ended, and then one with the latest end. */
  lemma GetBalanceAsOfIsLatest(balances: seq<DeferredBalance>, asOfDate: Day)
    ensures var found := GetBalanceAsOf(balances, asOfDate);
      && (found.Some? <==> exists i :: 0 <= i < |balances| && balances[i].periodEnd <= asOfDate)
      && (found.Some? ==>
            && found.value in balances
            && found.value.periodEnd <= asOfDate
            && forall i :: 0 <= i < |balances| && balances[i].periodEnd <= asOfDate ==>
                 balances[i].periodEnd <= found.value.periodEnd)
  {
    var filtered := Filter(EndingBy(asOfDate), balances);
    var applicable := Sorting.StableSort(filtered, LatestFirst);
    FilterMembers(EndingBy(asOfDate), balances);
    Sorting.SortContents(filtered, LatestFirst);
    Sorting.SortSorts(filtered, LatestFirst);
    if |applicable| > 0 {
      assert applicable[0] in filtered;
      assert EndingBy(asOfDate)(applicable[0]);
    }
    forall i | 0 <= i < |balances| && balances[i].periodEnd <= asOfDate
      ensures |applicable| > 0 && balances[i].periodEnd <= applicable[0].periodEnd
    {
      assert EndingBy(asOfDate)(balances[i]) && balances[i] in balances && balances[i] in applicable;
      var j :| 0 <= j < |applicable| && applicable[j] == balances[i];
      if j > 0 {
        assert LatestFirst(applicable[0]) <= LatestFirst(applicable[j]);
      }
    }
  }

  /** On a computed rollforward it is the closed form at the latest period end not after the date. */
  lemma BalanceAsOfClosedForm(
    balances: seq<DeferredBalance>, schedules: seq<SchedulePeriod>, events: seq<RecognitionEvent>, total: real,
    asOfDate: Day)
    requires IsRollforward(balances, schedules, events, total)
    ensures var (found, ends) := (GetBalanceAsOf(balances, asOfDate), PeriodEnds(schedules));
      if exists d :: d in ends && d <= asOfDate then
        && found.Some?
        && found.value.periodEnd in ends
        && (forall d :: d in ends && d <= asOfDate ==> d <= found.value.periodEnd)
        && found.value.periodEnd <= asOfDate
        && found.value.closingBalance == Round2(DeferredAt(events, total, found.value.periodEnd))
      else found == None
  {
    hide Round2, SumWhere, DeferredAt, InWindow, AdjustmentInWindow, UniqueEnds, GetBalanceAsOf;
    var ends := UniqueEnds(schedules);
    UniqueEndsAscend(schedules);
    GetBalanceAsOfIsLatest(balances, asOfDate);
    forall d | d in PeriodEnds(schedules)
      ensures exists k :: 0 <= k < |balances| && balances[k].periodEnd == d
    {
      assert d in ends;
      var k :| 0 <= k < |ends| && ends[k] == d;
      assert balances[k].periodEnd == d;
    }
    forall k | 0 <= k < |balances| ensures balances[k].periodEnd in PeriodEnds(schedules) {
      assert ends[k] in ends;
    }
  }

  // ---------- The rollforward by event types ----------

  /** Scheduled, usage and milestone events dated by a day. */
  function PerformedTypesBy(date: Day): RecognitionEvent -> bool {
    (e: RecognitionEvent) =>
      e.eventDate <= date &&
      (e.eventType == ScheduledEvent || e.eventType == UsageEvent || e.eventType == MilestoneEvent)
  }

  /** Adjustment, cancellation and amendment events dated by a day and after an earlier one, if there is one. */
  function AdjustingTypesWithin(after: Option<Day>, date: Day): RecognitionEvent -> bool {
    (e: RecognitionEvent) =>
      (after.Some? ==> after.value < e.eventDate) && e.eventDate <= date &&
      (e.eventType == Adjustment || e.eventType == Cancellation || e.eventType == Amendment)
  }

  /** All events dated by a day and after an earlier one, if there is one. */
  function AllWithin(after: Option<Day>, date: Day): RecognitionEvent -> bool {
    (e: RecognitionEvent) => (after.Some? ==> after.value < e.eventDate) && e.eventDate <= date
  }

  /**
   * At every period end the closing balance is the price less what scheduled, usage and milestone
   * events recognise by then; `recognized` are all events since the previous end, `adjustments` the
   * adjustments, cancellations and amendments among them; nothing is ever added.
   */
  lemma RollforwardByTypes(
    balances: seq<DeferredBalance>, schedules: seq<SchedulePeriod>, events: seq<RecognitionEvent>, total: real, k: nat)
    requires IsRollforward(balances, schedules, events, total) && k < |balances|
    ensures var (b, previous) := (balances[k], if k == 0 then None else Some(balances[k - 1].periodEnd));
      && b.closingBalance == Round2(total - SumWhere(events, PerformedTypesBy(b.periodEnd)))
      && b.recognized == Round2(SumWhere(events, AllWithin(previous, b.periodEnd)))
      && b.adjustments == Round2(SumWhere(events, AdjustingTypesWithin(previous, b.periodEnd)))
      && b.additions == 0.0
  {
    hide Round2, SumWhere, UniqueEnds;
    var ends := UniqueEnds(schedules);
    var previous := if k == 0 then None else Some(balances[k - 1].periodEnd);
    SumWhereSame(events, PerformedBy(ends[k]), PerformedTypesBy(ends[k]));
    SumWhereSame(events, InWindow(ends, k), AllWithin(previous, ends[k]));
    SumWhereSame(events, AdjustmentInWindow(ends, k), AdjustingTypesWithin(previous, ends[k]));
  }
}
