/** The whole calculation for a contract (packages/revrec/src/index.ts). */
module Pipeline {
  import opened Wrappers
  import opened Sequences
  import opened Money
  import opened Calendar
  import opened RevRecTypes
  import opened Obligations
  import opened Allocation
  import opened Schedules
  import opened Recognition
  import opened Deferred

  datatype RevRecOutput = RevRecOutput(
    obligations: seq<IdentifiedObligation>,
    allocations: seq<AllocationResult>,
    schedules: seq<seq<SchedulePeriod>>,
    events: seq<seq<RecognitionEvent>>,
    balances: seq<seq<DeferredBalance>>)

  /** `contract.arr`, or what the obligations add up to. */
  function ContractPrice(contract: ContractInput, obligations: seq<IdentifiedObligation>): real {
    contract.arr.GetOr(Sum(Prices(obligations)))
  }

  /** `allocations.find(a => a.obligationIndex === index)` */
  function FindAllocation(allocations: seq<AllocationResult>, index: nat): Option<AllocationResult> {
    if allocations == [] then None
    else if allocations[0].obligationIndex == index then Some(allocations[0])
    else FindAllocation(allocations[1..], index)
  }

  lemma {:induction false} FindInOrder(allocations: seq<AllocationResult>, offset: nat, index: nat)
    requires forall i :: 0 <= i < |allocations| ==> allocations[i].obligationIndex == offset + i
    requires offset <= index < offset + |allocations|
    ensures FindAllocation(allocations, index) == Some(allocations[index - offset])
  {
    if offset < index {
      FindInOrder(allocations[1..], offset + 1, index);
    }
  }

  lemma AllocationInOrder(results: seq<AllocationResult>, obligations: seq<IdentifiedObligation>, total: real)
    requires IsAllocation(results, obligations, total)
    ensures InOrder(results, |obligations|)
  {
    hide Sum, LastTakesRemainder;
  }

  /** Schedule, events and balances of one obligation. */
  ghost predicate IsObligationOutput(
    periods: seq<SchedulePeriod>, events: seq<RecognitionEvent>, balances: seq<DeferredBalance>,
    obligation: IdentifiedObligation, amount: real, today: Day)
  {
    && IsScheduleFor(periods, obligation, amount, Monthly)
    && events == EventsFor(periods, today)
    && IsRollforward(balances, periods, events, amount)
  }

  ghost predicate IsRevRec(out: RevRecOutput, obligations: seq<IdentifiedObligation>, total: real, today: Day) {
    && out.obligations == obligations
    && IsAllocation(out.allocations, obligations, total)
    && |out.allocations| == |out.schedules| == |out.events| == |out.balances| == |obligations|
    && forall i :: 0 <= i < |obligations| ==>
         IsObligationOutput(out.schedules[i], out.events[i], out.balances[i], obligations[i],
                            out.allocations[i].allocatedAmount, today)
  }

  method ComputeRevRec(contract: ContractInput, asOfDate: Option<Day>, now: Day)
    returns (result: Result<RevRecOutput, InvalidDates>)
    ensures match Identified(contract, now)
      case Failure(error) => result == Failure(error)
      case Success(obligations) =>
        result.Success? &&
        if obligations == [] then result.value == RevRecOutput([], [], [], [], [])
        else IsRevRec(result.value, obligations, ContractPrice(contract, obligations), asOfDate.GetOr(now))
  {
    hide Identified, IsAllocation, IsScheduleFor, IsRollforward, EventsFor, Sum, FindAllocation, InOrder;
    var identified := IdentifyObligations(contract, now);
    if identified.Failure? {
      return Failure(identified.error);
    }
    var obligations := identified.value;
    if |obligations| == 0 {
      return Success(RevRecOutput([], [], [], [], []));
    }
    var totalPrice := contract.arr.GetOr(Sum(Prices(obligations)));
    var allocations := AllocatePrices(obligations, totalPrice);
    Lookups(allocations, obligations, totalPrice);

    var schedules: seq<seq<SchedulePeriod>> := [];
    for i := 0 to |obligations|
      invariant |schedules| == i
      invariant forall j :: 0 <= j < i ==>
        IsScheduleFor(schedules[j], obligations[j], allocations[j].allocatedAmount, Monthly)
    {
      var allocation := FindAllocation(allocations, i);
      if allocation.Some? {
        var periods := GenerateSchedule(obligations[i], allocation.value.allocatedAmount, Monthly);
        schedules := schedules + [periods];
      } else {
        schedules := schedules + [[]];
      }
    }

    var events: seq<seq<RecognitionEvent>> := [];
    for i := 0 to |schedules|
      invariant |events| == i
      invariant forall j :: 0 <= j < i ==> events[j] == EventsFor(schedules[j], asOfDate.GetOr(now))
    {
      var created := CreateRecognitionEvents(schedules[i], asOfDate, now);
      events := events + [created];
    }

    var balances: seq<seq<DeferredBalance>> := [];
    for i := 0 to |obligations|
      invariant |balances| == i
      invariant forall j :: 0 <= j < i ==>
        IsRollforward(balances[j], schedules[j], events[j], allocations[j].allocatedAmount)
    {
      var allocation := FindAllocation(allocations, i);
      if allocation.Some? && |schedules[i]| > 0 {
        var rollforward := ComputeDeferredBalances(schedules[i], events[i], allocation.value.allocatedAmount);
        balances := balances + [rollforward];
      } else {
        NoPeriodsNoBalances(schedules[i], events[i], allocations[i].allocatedAmount);
        balances := balances + [[]];
      }
    }
    return Success(RevRecOutput(obligations, allocations, schedules, events, balances));
  }

  lemma Lookups(allocations: seq<AllocationResult>, obligations: seq<IdentifiedObligation>, total: real)
    requires IsAllocation(allocations, obligations, total)
    ensures |allocations| == |obligations|
    ensures forall i :: 0 <= i < |obligations| ==> FindAllocation(allocations, i) == Some(allocations[i])
  {
    AllocationInOrder(allocations, obligations, total);
    hide IsAllocation;
    forall i | 0 <= i < |obligations| ensures FindAllocation(allocations, i) == Some(allocations[i]) {
      FindInOrder(allocations, 0, i);
    }
  }

  lemma NoPeriodsNoBalances(periods: seq<SchedulePeriod>, events: seq<RecognitionEvent>, amount: real)
    ensures periods == [] ==> IsRollforward([], periods, events, amount)
  {
    if periods == [] {
      NoEnds(periods);
    }
  }

  // ---------- What every generated schedule has in common ----------

  /** Whole-cent amounts, and an event date that is a period end. */
  ghost predicate Settled(p: SchedulePeriod) {
    && IsCents(p.scheduledAmount)
    && IsCents(p.recognizedAmount)
    && (p.recognitionMethod == AsInvoiced ==> p.periodStart == p.periodEnd)
  }

  ghost predicate AllSettled(periods: seq<SchedulePeriod>) {
    forall i :: 0 <= i < |periods| ==> Settled(periods[i])
  }

  lemma StraightLineSettled(periods: seq<SchedulePeriod>, start: Day, end: Day, total: real, g: Granularity)
    requires start < end && IsStraightLine(periods, start, end, total, g)
    ensures AllSettled(periods) && AllStraightLine(periods)
  {
    StraightLineConserves(periods, start, end, total, g);
    hide LastTakesRemainder, Chained, DailyRate;
    ZeroIsCents();
    hide IsCents;
    forall i | 0 <= i < |periods| ensures Settled(periods[i]) {
      assert IsCents(Amounts(periods)[i]);
    }
  }

  lemma ZeroIsCents()
    ensures IsCents(0.0)
  {
  }

  lemma ScheduleSettled(periods: seq<SchedulePeriod>, o: IdentifiedObligation, amount: real, g: Granularity)
    requires o.serviceStartDate < o.serviceEndDate && IsScheduleFor(periods, o, amount, g)
    ensures AllSettled(periods) && periods != []
  {
    ZeroIsCents();
    if o.recognitionMethod == StraightLine {
      StraightLineSettled(periods, o.serviceStartDate, o.serviceEndDate, amount, g);
    }
    hide IsCents, Round2, Chained;
    if o.recognitionMethod == UsageBased {
      assert forall i :: 0 <= i < |periods| ==> Placeholder(periods[i]);
    }
  }

  lemma {:induction false} SettledEvents(periods: seq<SchedulePeriod>, today: Day)
    requires AllSettled(periods)
    ensures var events := EventsFor(periods, today);
      && CentEvents(events)
      && forall j :: 0 <= j < |events| ==> IsPerformance(events[j]) && events[j].eventDate in PeriodEnds(periods)
  {
    if periods != [] {
      var k := |periods| - 1;
      SettledEvents(periods[..k], today);
      hide IsCents;
      assert PeriodEnds(periods) == PeriodEnds(periods[..k]) + [periods[k].periodEnd];
      assert Settled(periods[k]);
    }
  }

  // ---------- Conservation for one obligation ----------

  lemma RollforwardConserves(
    periods: seq<SchedulePeriod>, balances: seq<DeferredBalance>, amount: real, today: Day, k: nat)
    requires AllSettled(periods)
    requires IsRollforward(balances, periods, EventsFor(periods, today), amount) && k < |balances|
    ensures var (events, end) := (EventsFor(periods, today), balances[k].periodEnd);
      balances[k].closingBalance + SumWhere(events, OnOrBefore(end)) == Round2(amount)
  {
    hide Round2, SumWhere, EventsFor, UniqueEnds, InWindow, AdjustmentInWindow, AllSettled;
    var events, end := EventsFor(periods, today), balances[k].periodEnd;
    SettledEvents(periods, today);
    SumWhereSame(events, PerformedBy(end), OnOrBefore(end));
    SumWhereCents(events, OnOrBefore(end));
    RoundShift(amount, SumWhere(events, OnOrBefore(end)));
  }

  /**
   * For every contract, as-of date, obligation and period: the closing balance and everything
   * recognised by the end of that period add up to the amount allocated to the obligation.
   */
  lemma BalancePlusRecognized(
    contract: ContractInput, now: Day, today: Day, out: RevRecOutput, obligations: seq<IdentifiedObligation>,
    i: nat, k: nat)
    requires Identified(contract, now) == Success(obligations)
    requires IsRevRec(out, obligations, ContractPrice(contract, obligations), today)
    requires i < |obligations| && k < |out.balances[i]|
    ensures var b := out.balances[i][k];
      b.closingBalance + CalculateCumulativeRecognized(out.events[i], Some(b.periodEnd), now) ==
      Round2(out.allocations[i].allocatedAmount)
  {
    hide Identified, IsAllocation, IsScheduleFor, IsRollforward, EventsFor, Round2, Sum, SumWhere;
    IdentifiedIsSound(contract, now);
    assert Sound(obligations[i], contract, ServiceStart(contract, now), ServiceEnd(contract, now));
    var amount := out.allocations[i].allocatedAmount;
    ScheduleSettled(out.schedules[i], obligations[i], amount, Monthly);
    RollforwardConserves(out.schedules[i], out.balances[i], amount, today, k);
  }

  function Always(): RecognitionEvent -> bool {
    (e: RecognitionEvent) => true
  }

  /** Everything an obligation's events recognise. */
  function EverRecognized(events: seq<RecognitionEvent>): real {
    SumWhere(events, Always())
  }

  /** The last balance comes after every event. */
  lemma FinalBalanceConserves(periods: seq<SchedulePeriod>, balances: seq<DeferredBalance>, amount: real, today: Day)
    requires AllSettled(periods) && periods != []
    requires IsRollforward(balances, periods, EventsFor(periods, today), amount)
    ensures balances != []
    ensures forall d :: d in PeriodEnds(periods) ==> d <= balances[|balances| - 1].periodEnd
    ensures var (events, last) := (EventsFor(periods, today), balances[|balances| - 1]);
      && EverRecognized(events) == SumWhere(events, OnOrBefore(last.periodEnd))
      && EverRecognized(events) + last.closingBalance == Round2(amount)
  {
    hide Round2, SumWhere, EventsFor, UniqueEnds, InWindow, AdjustmentInWindow, AllSettled, DeferredAt;
    UniqueEndsAscend(periods);
    SettledEvents(periods, today);
    var events, ends, last := EventsFor(periods, today), UniqueEnds(periods), balances[|balances| - 1];
    forall d | d in PeriodEnds(periods) ensures d <= last.periodEnd {
      assert d in ends;
    }
    RollforwardConserves(periods, balances, amount, today, |balances| - 1);
    SumWhereSame(events, Always(), OnOrBefore(last.periodEnd));
  }

  // ---------- Straight-line obligations ----------

  /** What the periods that end after a date have scheduled. */
  function PendingAfter(periods: seq<SchedulePeriod>, date: Day): real {
    if periods == [] then 0.0
    else
      var k := |periods| - 1;
      PendingAfter(periods[..k], date) + if periods[k].periodEnd > date then periods[k].scheduledAmount else 0.0
  }

  lemma {:induction false} DueOrPending(periods: seq<SchedulePeriod>, date: Day)
    ensures DueBy(periods, date) + PendingAfter(periods, date) == Sum(Amounts(periods))
  {
    if periods != [] {
      var k := |periods| - 1;
      DueOrPending(periods[..k], date);
      assert Amounts(periods)[..k] == Amounts(periods[..k]);
    }
  }

  lemma {:induction false} AllDue(periods: seq<SchedulePeriod>, date: Day, later: Day)
    requires forall i :: 0 <= i < |periods| ==> periods[i].periodEnd <= date || date == later
    requires date <= later
    ensures DueBy(periods, date) == DueBy(periods, later)
    ensures (forall i :: 0 <= i < |periods| ==> periods[i].periodEnd <= date) ==> PendingAfter(periods, date) == 0.0
  {
    if periods != [] {
      AllDue(periods[..|periods| - 1], date, later);
    }
  }

  /**
   * The final deferred balance of a straight-line obligation is what its periods ending after the
   * as-of date have scheduled, which is nothing once the service term has passed.
   */
  lemma StraightLineFinalBalance(
    periods: seq<SchedulePeriod>, balances: seq<DeferredBalance>, start: Day, end: Day, amount: real,
    g: Granularity, today: Day)
    requires start < end && IsStraightLine(periods, start, end, amount, g)
    requires IsRollforward(balances, periods, EventsFor(periods, today), amount)
    ensures balances != []
    ensures var last := balances[|balances| - 1];
      && last.periodEnd == end
      && last.closingBalance == PendingAfter(periods, today)
      && (end <= today ==> last.closingBalance == 0.0)
  {
    StraightLineSettled(periods, start, end, amount, g);
    StraightLineConserves(periods, start, end, amount, g);
    FinalBalanceConserves(periods, balances, amount, today);
    var last := balances[|balances| - 1];
    LastEndIsServiceEnd(periods, balances, start, end, amount, g, EventsFor(periods, today));
    hide IsStraightLine, IsRollforward, Round2, EventsFor, SumWhere;
    CumulativeIsDue(periods, today, end);
    DueOrPending(periods, today);
    forall i | 0 <= i < |periods| ensures periods[i].periodEnd <= end {
      assert PeriodEnds(periods)[i] in PeriodEnds(periods);
    }
    if end <= today {
      AllDue(periods, end, today);
      AllDue(periods, today, today);
    }
  }

  lemma LastEndIsServiceEnd(
    periods: seq<SchedulePeriod>, balances: seq<DeferredBalance>, start: Day, end: Day, amount: real,
    g: Granularity, events: seq<RecognitionEvent>)
    requires start < end && IsStraightLine(periods, start, end, amount, g)
    requires IsRollforward(balances, periods, events, amount) && balances != []
    requires forall d :: d in PeriodEnds(periods) ==> d <= balances[|balances| - 1].periodEnd
    ensures balances[|balances| - 1].periodEnd == end
  {
    EndsByServiceEnd(periods, start, end, amount, g);
    hide IsStraightLine, UniqueEnds, PeriodEnds, Round2, DeferredAt, SumWhere, InWindow, AdjustmentInWindow;
    UniqueEndsAscend(periods);
    var ends := UniqueEnds(periods);
    assert ends[|ends| - 1] in ends;
  }

  lemma EndsByServiceEnd(periods: seq<SchedulePeriod>, start: Day, end: Day, amount: real, g: Granularity)
    requires start < end && IsStraightLine(periods, start, end, amount, g)
    ensures forall i :: 0 <= i < |periods| ==> periods[i].periodEnd <= end
    ensures end in PeriodEnds(periods) && forall d :: d in PeriodEnds(periods) ==> d <= end
  {
    hide EndOf, LastTakesRemainder, DailyRate;
    forall i | 0 <= i < |periods| ensures periods[i].periodEnd <= end {
      assert RunsToEnd(periods[i], end, g);
    }
    assert PeriodEnds(periods)[|periods| - 1] == end;
  }

  /**
   * Three views of one straight-line obligation: its events summed, its price less the final
   * deferred balance, and its periods after the events are applied. The first two always agree;
   * the third joins them if and only if no period that is due has a negative amount.
   */
  lemma {:induction false} ThreeViewsAgree(
    periods: seq<SchedulePeriod>, balances: seq<DeferredBalance>, start: Day, end: Day, amount: real,
    g: Granularity, asOfDate: Option<Day>, now: Day)
    requires start < end && IsStraightLine(periods, start, end, amount, g)
    requires IsRollforward(balances, periods, EventsFor(periods, asOfDate.GetOr(now)), amount)
    ensures balances != []
    ensures var (events, today) := (EventsFor(periods, asOfDate.GetOr(now)), asOfDate.GetOr(now));
      var recognized := CalculateCumulativeRecognized(events, asOfDate, now);
      && recognized == Round2(amount) - balances[|balances| - 1].closingBalance
      && (Sum(AppliedAmounts(periods, events)) == recognized <==>
          forall i :: 0 <= i < |periods| && periods[i].periodEnd <= today ==> periods[i].scheduledAmount >= 0.0)
  {
    var today := asOfDate.GetOr(now);
    StraightLineSettled(periods, start, end, amount, g);
    StraightLineConserves(periods, start, end, amount, g);
    StraightLineFinalBalance(periods, balances, start, end, amount, g, today);
    hide IsStraightLine, IsRollforward, Round2, EventsFor, SumWhere, IsCents;
    assert CentAmounts(periods) by {
      forall i | 0 <= i < |periods| ensures IsCents(periods[i].scheduledAmount) {
        assert Settled(periods[i]);
      }
    }
    PeriodViewIsEventView(periods, asOfDate, now);
    CumulativeIsDue(periods, today, today);
    DueOrPending(periods, today);
  }

  // ---------- Obligations of the other methods ----------

  lemma {:induction false} NoUsageEvents(periods: seq<SchedulePeriod>, today: Day)
    requires forall i :: 0 <= i < |periods| ==> Placeholder(periods[i])
    ensures EventsFor(periods, today) == []
  {
    if periods != [] {
      NoUsageEvents(periods[..|periods| - 1], today);
    }
  }

  lemma OnePeriodEvents(p: SchedulePeriod, today: Day)
    ensures EverRecognized(EventsFor([p], today)) ==
      (var e := EventFor(p, 0, today); if e.Some? then e.value.recognizedAmount else 0.0)
  {
    assert [p][..0] == [];
    assert EventsFor([p][..0], today) == [];
    if EventFor(p, 0, today).Some? {
      var e := EventFor(p, 0, today).value;
      assert EventsFor([p], today) == [] + [e];
      assert [e][..0] == [];
      assert SumWhere([e][..0], Always()) == 0.0;
      assert EverRecognized([e]) == e.recognizedAmount;
    }
  }

  /**
   * Whatever the as-of date, an as-invoiced obligation recognises its whole amount unless that is
   * negative, and the pipeline by itself recognises nothing of milestone and usage obligations:
   * their amount stays deferred.
   */
  lemma OtherMethodsRecognize(
    periods: seq<SchedulePeriod>, balances: seq<DeferredBalance>, o: IdentifiedObligation, amount: real, today: Day)
    requires o.serviceStartDate < o.serviceEndDate && o.recognitionMethod != StraightLine
    requires IsObligationOutput(periods, EventsFor(periods, today), balances, o, amount, today)
    ensures balances != []
    ensures EverRecognized(EventsFor(periods, today)) ==
            if o.recognitionMethod == AsInvoiced then Max(0.0, Round2(amount)) else 0.0
    ensures balances[|balances| - 1].closingBalance ==
            if o.recognitionMethod == AsInvoiced then Min(0.0, Round2(amount)) else Round2(amount)
  {
    hide Round2, IsRollforward, EverRecognized, EventsFor, IsScheduleFor;
    ScheduleSettled(periods, o, amount, Monthly);
    FinalBalanceConserves(periods, balances, amount, today);
    RecognizedByMethod(periods, o, amount, today);
  }

  lemma RecognizedByMethod(periods: seq<SchedulePeriod>, o: IdentifiedObligation, amount: real, today: Day)
    requires IsScheduleFor(periods, o, amount, Monthly) && o.recognitionMethod != StraightLine
    ensures EverRecognized(EventsFor(periods, today)) ==
            if o.recognitionMethod == AsInvoiced then Max(0.0, Round2(amount)) else 0.0
  {
    hide Round2, EverRecognized, EventsFor, Chained;
    if o.recognitionMethod == UsageBased {
      NoUsageEvents(periods, today);
      NothingRecognized();
    } else {
      OnePeriodEvents(periods[0], today);
      assert periods == [periods[0]];
    }
  }

  lemma NothingRecognized()
    ensures EverRecognized([]) == 0.0
  {
  }

  // ---------- Conservation for the contract ----------

  /** What each obligation ever recognises plus what it ends up deferring. */
  function Settlements(out: RevRecOutput): (amounts: seq<real>)
    requires |out.events| == |out.balances|
    requires forall i :: 0 <= i < |out.balances| ==> out.balances[i] != []
    ensures |amounts| == |out.events|
    ensures forall i :: 0 <= i < |out.events| ==>
      amounts[i] == EverRecognized(out.events[i]) + out.balances[i][|out.balances[i]| - 1].closingBalance
  {
    seq(|out.events|, i requires 0 <= i < |out.events| =>
      EverRecognized(out.events[i]) + out.balances[i][|out.balances[i]| - 1].closingBalance)
  }

  lemma PipelineAllocates(contract: ContractInput, obligations: seq<IdentifiedObligation>,
                          results: seq<AllocationResult>, total: real, start: Day, end: Day)
    requires obligations != [] && AllSound(obligations, contract, start, end)
    requires IsAllocation(results, obligations, total)
    ensures |results| == |obligations|
    ensures if |obligations| == 1 then results[0].allocatedAmount == obligations[0].transactionPrice
            else Sum(AllocatedAmounts(results)) == Round2(total) && AllCents(AllocatedAmounts(results))
  {
    hide Sum, IsProportional, IsCents, Round2;
    AllocationInOrder(results, obligations, total);
    assert Sound(obligations[0], contract, start, end);
    if |obligations| > 1 {
      if Sum(Prices(obligations)) == 0.0 {
        ProportionalConserves(results, Ones(|obligations|), total, EqualAllocation);
      } else {
        ProportionalConserves(results, Prices(obligations), total, TransactionPriceProportional);
      }
    }
  }

  lemma OutputSettles(
    contract: ContractInput, now: Day, today: Day, out: RevRecOutput, obligations: seq<IdentifiedObligation>, i: nat)
    requires Identified(contract, now) == Success(obligations)
    requires IsRevRec(out, obligations, ContractPrice(contract, obligations), today)
    requires i < |obligations|
    ensures out.balances[i] != []
    ensures EverRecognized(out.events[i]) + out.balances[i][|out.balances[i]| - 1].closingBalance ==
            Round2(out.allocations[i].allocatedAmount)
  {
    hide Identified, IsAllocation, IsScheduleFor, IsRollforward, EventsFor, Round2, Sum, SumWhere, AllSettled;
    IdentifiedIsSound(contract, now);
    assert Sound(obligations[i], contract, ServiceStart(contract, now), ServiceEnd(contract, now));
    assert IsObligationOutput(out.schedules[i], out.events[i], out.balances[i], obligations[i],
                              out.allocations[i].allocatedAmount, today);
    var amount := out.allocations[i].allocatedAmount;
    ScheduleSettled(out.schedules[i], obligations[i], amount, Monthly);
    FinalBalanceConserves(out.schedules[i], out.balances[i], amount, today);
  }

  /**
   * Over all obligations, what is ever recognised plus what stays deferred is the contract price
   * to the cent when there are two or more obligations. A single obligation keeps to its own price.
   */
  lemma ContractConserves(
    contract: ContractInput, now: Day, today: Day, out: RevRecOutput, obligations: seq<IdentifiedObligation>)
    requires Identified(contract, now) == Success(obligations) && obligations != []
    requires IsRevRec(out, obligations, ContractPrice(contract, obligations), today)
    ensures |out.events| == |out.balances| && forall i :: 0 <= i < |out.balances| ==> out.balances[i] != []
    ensures Sum(Settlements(out)) ==
      Round2(if |obligations| == 1 then obligations[0].transactionPrice else ContractPrice(contract, obligations))
  {
    hide Identified, IsRevRec, Round2, Sum, Settlements, IsAllocation, AllSound, IsCents;
    SettlementsAre(contract, now, today, out, obligations);
    IdentifiedIsSound(contract, now);
    var amounts := AllocatedAmounts(out.allocations);
    RevRecAllocates(out, obligations, ContractPrice(contract, obligations), today);
    PipelineAllocates(contract, obligations, out.allocations, ContractPrice(contract, obligations),
                      ServiceStart(contract, now), ServiceEnd(contract, now));
    if |obligations| == 1 {
      SumPush([], Settlements(out)[0]);
      SumEmpty([]);
      assert Settlements(out) == [] + [Settlements(out)[0]];
    } else {
      forall i | 0 <= i < |amounts| ensures Settlements(out)[i] == amounts[i] {
        RoundShift(0.0, amounts[i]);
      }
      assert Settlements(out) == amounts;
    }
  }

  lemma RevRecAllocates(out: RevRecOutput, obligations: seq<IdentifiedObligation>, total: real, today: Day)
    requires IsRevRec(out, obligations, total, today)
    ensures IsAllocation(out.allocations, obligations, total)
    ensures |out.allocations| == |out.events| == |out.balances| == |obligations|
  {
    hide IsAllocation, IsObligationOutput;
  }

  lemma SettlementsAre(
    contract: ContractInput, now: Day, today: Day, out: RevRecOutput, obligations: seq<IdentifiedObligation>)
    requires Identified(contract, now) == Success(obligations)
    requires IsRevRec(out, obligations, ContractPrice(contract, obligations), today)
    ensures |out.allocations| == |out.events| == |out.balances| == |obligations|
    ensures forall i :: 0 <= i < |out.balances| ==> out.balances[i] != []
    ensures forall i :: 0 <= i < |obligations| ==> Settlements(out)[i] == Round2(out.allocations[i].allocatedAmount)
  {
    hide Identified, IsRevRec, Round2, EverRecognized;
    RevRecAllocates(out, obligations, ContractPrice(contract, obligations), today);
    forall i | 0 <= i < |obligations|
      ensures out.balances[i] != []
      ensures EverRecognized(out.events[i]) + out.balances[i][|out.balances[i]| - 1].closingBalance ==
              Round2(out.allocations[i].allocatedAmount)
    {
      OutputSettles(contract, now, today, out, obligations, i);
    }
  }

  // ---------- When a single obligation comes to the contract price ----------

  /** A single obligation is priced at a positive contract value, or else at the ARR. */
  lemma SinglePrice(contract: ContractInput, now: Day, obligations: seq<IdentifiedObligation>)
    requires Identified(contract, now) == Success(obligations) && |obligations| == 1
    ensures obligations[0].transactionPrice ==
      if LastValue(contract.terms) > 0.0 then LastValue(contract.terms) else contract.arr.GetOr(0.0)
  {
    hide Identified, OfType, PriceOf, TypesOf, Filter, AddYears, FromType, LastValue;
    var (start, end) := (ServiceStart(contract, now), ServiceEnd(contract, now));
    var (value, o) := (LastValue(contract.terms), obligations[0]);
    IdentifiedByType(contract, now);
    IdentifiedIsSound(contract, now);
    assert Sound(o, contract, start, end);
    if value > 0.0 {
      SubscriptionPresent(contract, now, obligations);
    }
    if ByType(obligations, contract, Distinct(TypesOf(contract.terms)), start, end) {
      assert FromType(o, contract, start, end);
      PricedBy(o, contract, start, end);
    }
  }

  lemma SubscriptionPresent(contract: ContractInput, now: Day, obligations: seq<IdentifiedObligation>)
    requires Identified(contract, now) == Success(obligations) && LastValue(contract.terms) > 0.0
    ensures exists i :: 0 <= i < |obligations| && obligations[i].obligationType == Subscription
    ensures var (start, end) := (ServiceStart(contract, now), ServiceEnd(contract, now));
      ByType(obligations, contract, Distinct(TypesOf(contract.terms)), start, end)
  {
    hide Identified, OfType, TypesOf, Filter, AddYears, FromType, LastValue;
    IdentifiedByType(contract, now);
    ValueMakesSubscription(contract.terms);
    ValueOfType(contract.terms, Subscription);
    DistinctMembers(TypesOf(contract.terms));
    assert Subscription in Distinct(TypesOf(contract.terms));
  }

  /**
   * With one obligation, what is recognised and deferred is the contract price if and only if there
   * is no ARR, the terms give no positive contract value, or the two round to the same cents.
   */
  lemma SingleConservesIff(
    contract: ContractInput, now: Day, today: Day, out: RevRecOutput, obligations: seq<IdentifiedObligation>)
    requires Identified(contract, now) == Success(obligations) && |obligations| == 1
    requires IsRevRec(out, obligations, ContractPrice(contract, obligations), today)
    ensures |out.events| == |out.balances| && forall i :: 0 <= i < |out.balances| ==> out.balances[i] != []
    ensures var value := LastValue(contract.terms);
      Sum(Settlements(out)) == Round2(ContractPrice(contract, obligations)) <==>
        contract.arr.None? || value <= 0.0 || Round2(value) == Round2(contract.arr.value)
  {
    hide Identified, IsRevRec, Round2, Sum, Settlements, LastValue;
    SinglePrice(contract, now, obligations);
    ContractConserves(contract, now, today, out, obligations);
    OnePrice(obligations);
  }

  lemma OnePrice(obligations: seq<IdentifiedObligation>)
    requires |obligations| == 1
    ensures Sum(Prices(obligations)) == obligations[0].transactionPrice
  {
    SumPush([], obligations[0].transactionPrice);
    assert Prices(obligations) == [] + [obligations[0].transactionPrice];
  }

  /** A contract value of 120 with an ARR of 100 settles at 120. */
  lemma SingleConservesExample(
    contract: ContractInput, now: Day, today: Day, out: RevRecOutput, obligations: seq<IdentifiedObligation>)
    requires contract.arr == Some(100.0) && contract.terms == [ContractTerm("value", "contract_value", Some(120.0))]
    requires Identified(contract, now) == Success(obligations)
    requires IsRevRec(out, obligations, ContractPrice(contract, obligations), today)
    ensures |obligations| == 1 && ContractPrice(contract, obligations) == 100.0
    ensures |out.events| == |out.balances| && forall i :: 0 <= i < |out.balances| ==> out.balances[i] != []
    ensures Sum(Settlements(out)) == 120.0
  {
    hide Identified, IsRevRec, Round2, Sum, Settlements, LastValue, TypesOf, IsCents;
    OneValue(contract);
    OneType(contract, now, obligations);
    SinglePrice(contract, now, obligations);
    ContractConserves(contract, now, today, out, obligations);
    WholeNumberOfCents(120.0, 12000);
    RoundShift(0.0, 120.0);
  }

  lemma OneType(contract: ContractInput, now: Day, obligations: seq<IdentifiedObligation>)
    requires Identified(contract, now) == Success(obligations)
    requires LastValue(contract.terms) > 0.0 && Distinct(TypesOf(contract.terms)) == [Subscription]
    ensures |obligations| == 1
  {
    hide Identified, LastValue, AddYears, FromType, TypesOf, OfType, PriceOf, Filter;
    SubscriptionPresent(contract, now, obligations);
    var types := ObligationTypes(obligations);
    MembersOfDistinct(types);
    forall t | t in types ensures t == Subscription {
      assert t in Distinct(TypesOf(contract.terms));
    }
    SubsetSize((set t | t in types), {Subscription});
  }

  lemma OneValue(contract: ContractInput)
    requires contract.terms == [ContractTerm("value", "contract_value", Some(120.0))]
    ensures LastValue(contract.terms) == 120.0
    ensures Distinct(TypesOf(contract.terms)) == [Subscription]
  {
    assert contract.terms[..0] == [];
    assert TypesOf(contract.terms) == [] + [Subscription];
    assert [Subscription][..0] == [];
    assert Distinct([Subscription]) == [Subscription];
  }

  // ---------- When the contract price is split equally ----------

  lemma SamePricesIff(contract: ContractInput, now: Day, obligations: seq<IdentifiedObligation>)
    requires Identified(contract, now) == Success(obligations) && |obligations| >= 2
    ensures contract.arr.Some? && contract.arr.value > 0.0
    ensures var value := LastValue(contract.terms);
      SamePrices(obligations) <==> value <= 0.0 || contract.arr == Some(value)
  {
    hide Identified, OfType, PriceOf, TypesOf, Filter, AddYears, FromType, LastValue;
    var (start, end) := (ServiceStart(contract, now), ServiceEnd(contract, now));
    var value := LastValue(contract.terms);
    IdentifiedByType(contract, now);
    IdentifiedIsSound(contract, now);
    forall i | 0 <= i < |obligations|
      ensures obligations[i].transactionPrice > 0.0
      ensures obligations[i].transactionPrice ==
        if obligations[i].obligationType == Subscription && value != 0.0 then value else contract.arr.GetOr(0.0)
    {
      assert FromType(obligations[i], contract, start, end) && Sound(obligations[i], contract, start, end);
      PricedBy(obligations[i], contract, start, end);
    }
    assert obligations[0].obligationType != obligations[1].obligationType;
    if value > 0.0 {
      SubscriptionPresent(contract, now, obligations);
      var i :| 0 <= i < |obligations| && obligations[i].obligationType == Subscription;
      var j := if i == 0 then 1 else 0;
      assert obligations[j].obligationType != Subscription;
    }
  }

  /**
   * Two or more obligations of a contract share its price equally before rounding if and only if
   * the contract value among its terms is missing, not positive, or the ARR itself.
   */
  lemma EqualSplitIffValue(
    contract: ContractInput, now: Day, obligations: seq<IdentifiedObligation>, results: seq<AllocationResult>)
    requires Identified(contract, now) == Success(obligations) && |obligations| >= 2
    requires IsAllocation(results, obligations, ContractPrice(contract, obligations))
    ensures var (total, value) := (ContractPrice(contract, obligations), LastValue(contract.terms));
      && LastTakesRemainder(AllocatedAmounts(results), ExactShares(obligations, total), total)
      && (AllEqual(ExactShares(obligations, total), Part(total, |obligations|)) <==>
          value <= 0.0 || contract.arr == Some(value))
  {
    hide Identified, IsAllocation, LastTakesRemainder, AllEqual, SamePrices, LastValue;
    IdentifiedIsSound(contract, now);
    forall i | 0 <= i < |obligations|
      ensures obligations[i].standaloneSellingPrice.None? && Prices(obligations)[i] > 0.0
    {
      assert Sound(obligations[i], contract, ServiceStart(contract, now), ServiceEnd(contract, now));
    }
    SamePricesIff(contract, now, obligations);
    PositiveSum(Prices(obligations));
    EqualSplitIff(results, obligations, ContractPrice(contract, obligations));
  }

  lemma {:induction false} PositiveSum(s: seq<real>)
    requires s != [] && forall i :: 0 <= i < |s| ==> s[i] > 0.0
    ensures Sum(s) > 0.0
  {
    if |s| > 1 {
      PositiveSum(s[..|s| - 1]);
    }
  }

  // ---------- When the last obligation of a contract gets a negative amount ----------

  lemma AtMostFive(types: seq<ObligationType>)
    requires NoDuplicates(types)
    ensures |types| <= 5
  {
    var five := {Subscription, Usage, OneTime, ProfessionalServices, Support};
    MembersOfDistinct(types);
    forall t: ObligationType ensures t in five {
      match t {
        case Subscription =>
        case Usage =>
        case OneTime =>
        case ProfessionalServices =>
        case Support =>
      }
    }
    SubsetSize((set t | t in types), five);
  }

  lemma {:induction false} MembersOfDistinct(types: seq<ObligationType>)
    requires NoDuplicates(types)
    ensures |set t | t in types| == |types|
  {
    if types != [] {
      var k := |types| - 1;
      MembersOfDistinct(types[..k]);
      assert (set t | t in types) == (set t | t in types[..k]) + {types[k]};
    }
  }

  lemma SubsetSize(small: set<ObligationType>, large: set<ObligationType>)
    requires small <= large
    ensures |small| <= |large|
  {
    assert large == small + (large - small);
  }

  function ObligationTypes(obligations: seq<IdentifiedObligation>): (types: seq<ObligationType>)
    ensures |types| == |obligations|
    ensures forall i :: 0 <= i < |obligations| ==> types[i] == obligations[i].obligationType
  {
    seq(|obligations|, i requires 0 <= i < |obligations| => obligations[i].obligationType)
  }

  lemma FewObligations(contract: ContractInput, now: Day, obligations: seq<IdentifiedObligation>)
    requires Identified(contract, now) == Success(obligations)
    ensures |obligations| <= 5
  {
    hide Identified, Sound;
    IdentifiedIsSound(contract, now);
    AtMostFive(ObligationTypes(obligations));
  }

  lemma SmallSplits(cents: nat, n: nat)
    requires 2 <= n <= 5
    ensures 2 * (cents % n) >= n && cents / n + cents % n < n - 1 <==> (n == 4 && cents == 2) || (n == 5 && cents == 3)
  {
    if n == 2 {
    } else if n == 3 {
    } else if n == 4 {
    } else {
    }
  }

  /** Identified obligations are always split by their prices. */
  lemma SplitByPrices(
    contract: ContractInput, now: Day, obligations: seq<IdentifiedObligation>, results: seq<AllocationResult>)
    requires Identified(contract, now) == Success(obligations) && |obligations| >= 2
    requires IsAllocation(results, obligations, ContractPrice(contract, obligations))
    ensures IsProportional(
              results, Prices(obligations), ContractPrice(contract, obligations), TransactionPriceProportional)
  {
    hide Identified, IsProportional, IsResidual, Sum;
    IdentifiedIsSound(contract, now);
    forall i | 0 <= i < |obligations|
      ensures obligations[i].standaloneSellingPrice.None? && Prices(obligations)[i] > 0.0
    {
      assert Sound(obligations[i], contract, ServiceStart(contract, now), ServiceEnd(contract, now));
    }
    PositiveSum(Prices(obligations));
    NoSellingPrices(obligations);
  }

  /**
   * The last of two or more obligations of a contract gets a negative amount exactly when the
   * rounded shares of the others, by their prices, come to more than the contract price.
   */
  lemma LastNegativeByPrices(
    contract: ContractInput, now: Day, obligations: seq<IdentifiedObligation>, results: seq<AllocationResult>)
    requires Identified(contract, now) == Success(obligations) && |obligations| >= 2
    requires IsAllocation(results, obligations, ContractPrice(contract, obligations))
    ensures |results| == |obligations| && Sum(Prices(obligations)) != 0.0
    ensures var (n, total) := (|obligations|, ContractPrice(contract, obligations));
      results[n - 1].allocatedAmount < 0.0 <==>
      Sum(Rounded(Shares(Prices(obligations), Sum(Prices(obligations)), total))[..n - 1]) > Round2(total)
  {
    hide Identified, IsAllocation, Sum, Round2, LastTakesRemainder;
    SplitByPrices(contract, now, obligations, results);
    LastNegativeIff(results, Prices(obligations), ContractPrice(contract, obligations), TransactionPriceProportional);
  }

  /**
   * When a contract's price of whole cents is split equally, the last obligation gets a negative
   * amount exactly for two cents over four obligations and three cents over five.
   */
  lemma LastNegativeIffTiny(
    contract: ContractInput, now: Day, obligations: seq<IdentifiedObligation>, results: seq<AllocationResult>,
    cents: nat)
    requires Identified(contract, now) == Success(obligations) && |obligations| >= 2
    requires contract.arr == Some(cents as real / 100.0)
    requires LastValue(contract.terms) <= 0.0 || contract.arr == Some(LastValue(contract.terms))
    requires IsAllocation(results, obligations, ContractPrice(contract, obligations))
    ensures |results| == |obligations|
    ensures var n := |obligations|;
      results[n - 1].allocatedAmount < 0.0 <==> (n == 4 && cents == 2) || (n == 5 && cents == 3)
  {
    hide Identified, IsAllocation, IsProportional, LastValue, Sum;
    var n := |obligations|;
    SplitByPrices(contract, now, obligations, results);
    SamePricesIff(contract, now, obligations);
    AllocationInOrder(results, obligations, ContractPrice(contract, obligations));
    EqualLastNegative(results, Prices(obligations), TransactionPriceProportional, cents);
    FewObligations(contract, now, obligations);
    SmallSplits(cents, n);
  }

  /** One term of each type and an ARR of three cents. */
  predicate OneOfEach(contract: ContractInput) {
    && contract.arr == Some(0.03)
    && contract.terms == [
         ContractTerm("a", "term_length", None), ContractTerm("b", "support_terms", None),
         ContractTerm("c", "usage_terms", None), ContractTerm("d", "professional_services", None),
         ContractTerm("e", "one_time_fee", None)]
  }

  /** The last of five obligations for three cents owes one. */
  lemma LastNegativeExample(
    contract: ContractInput, now: Day, obligations: seq<IdentifiedObligation>, results: seq<AllocationResult>)
    requires OneOfEach(contract) && Identified(contract, now) == Success(obligations)
    requires IsAllocation(results, obligations, ContractPrice(contract, obligations))
    ensures |results| == |obligations| == 5 && results[4].allocatedAmount == -0.01
  {
    hide Identified, IsAllocation, IsProportional, LastValue, Sum, OneOfEach;
    FiveObligations(contract, now, obligations);
    SplitByPrices(contract, now, obligations, results);
    SamePricesIff(contract, now, obligations);
    AllocationInOrder(results, obligations, ContractPrice(contract, obligations));
    ThreeCents(contract);
    EqualLastNegative(results, Prices(obligations), TransactionPriceProportional, 3);
  }

  lemma ThreeCents(contract: ContractInput)
    requires OneOfEach(contract)
    ensures contract.arr == Some(3 as real / 100.0)
  {
  }

  lemma {:induction false} TypesOfEach(terms: seq<ContractTerm>)
    requires |terms| == 5
    requires terms[0].termType == "term_length" && terms[1].termType == "support_terms"
    requires terms[2].termType == "usage_terms" && terms[3].termType == "professional_services"
    requires terms[4].termType == "one_time_fee"
    ensures TypesOf(terms) == [Subscription, Support, Usage, ProfessionalServices, OneTime]
    ensures LastValue(terms) == 0.0
  {
    assert terms[..5] == terms && terms[..0] == [];
    assert terms[..5][..4] == terms[..4] && terms[..4][..3] == terms[..3];
    assert terms[..3][..2] == terms[..2] && terms[..2][..1] == terms[..1] && terms[..1][..0] == terms[..0];
    assert TypesOf(terms[..1]) == [Subscription] && LastValue(terms[..1]) == 0.0;
    assert TypesOf(terms[..2]) == [Subscription, Support] && LastValue(terms[..2]) == 0.0;
    assert TypesOf(terms[..3]) == [Subscription, Support, Usage] && LastValue(terms[..3]) == 0.0;
    assert TypesOf(terms[..4]) == [Subscription, Support, Usage, ProfessionalServices] && LastValue(terms[..4]) == 0.0;
  }

  lemma FiveObligations(contract: ContractInput, now: Day, obligations: seq<IdentifiedObligation>)
    requires OneOfEach(contract) && Identified(contract, now) == Success(obligations)
    ensures |obligations| == 5 && LastValue(contract.terms) == 0.0
  {
    TypesOfEach(contract.terms);
    hide Identified, LastValue, TypesOf, OfType, Filter, MappingOf, AddYears, FromType;
    IdentifiedByType(contract, now);
    DistinctMembers(TypesOf(contract.terms));
    var five := [Subscription, Support, Usage, ProfessionalServices, OneTime];
    forall t | t in five ensures PriceOf(Filter(OfType(t), contract.terms), contract.arr) > 0.0 {
      ValueOfType(contract.terms, t);
    }
    assert five[0] in five && five[1] in five && five[2] in five && five[3] in five && five[4] in five;
    var types := ObligationTypes(obligations);
    forall t | t in five ensures t in types {
      var i :| 0 <= i < |obligations| && obligations[i].obligationType == t;
      assert types[i] == t;
    }
    FewObligations(contract, now, obligations);
    ManyTypes(types);
  }

  lemma ManyTypes(types: seq<ObligationType>)
    requires forall t :: t in [Subscription, Support, Usage, ProfessionalServices, OneTime] ==> t in types
    ensures |types| >= 5
  {
    var five := [Subscription, Support, Usage, ProfessionalServices, OneTime];
    assert five[0] in types && five[1] in types && five[2] in types && five[3] in types && five[4] in types;
    MembersAtMost(types);
    SubsetSize({Subscription, Support, Usage, ProfessionalServices, OneTime}, (set t | t in types));
  }

  lemma {:induction false} MembersAtMost(types: seq<ObligationType>)
    ensures |set t | t in types| <= |types|
  {
    if types != [] {
      var k := |types| - 1;
      MembersAtMost(types[..k]);
      assert (set t | t in types) == (set t | t in types[..k]) + {types[k]};
    }
  }
}
