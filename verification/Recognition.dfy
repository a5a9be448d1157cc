/** Recognition events and their effect on schedules (packages/revrec/src/recognition.ts). */
module Recognition {
  import opened Wrappers
  import opened Sequences
  import opened Money
  import opened Calendar
  import opened RevRecTypes

  // ---------- Creating events ----------

  /** The event, if any, that period `index` of a schedule gives rise to by `today`. */
  function EventFor(p: SchedulePeriod, index: nat, today: Day): (event: Option<RecognitionEvent>)
    ensures event.Some? ==> event.value.scheduleIndex == Some(index)
  {
    match p.recognitionMethod
    case StraightLine =>
      if p.periodEnd <= today
      then Some(RecognitionEvent(p.periodEnd, p.scheduledAmount, ScheduledEvent, Some(index))) else None
    case AsInvoiced =>
      if p.recognizedAmount > 0.0
      then Some(RecognitionEvent(p.periodStart, p.recognizedAmount, ScheduledEvent, Some(index))) else None
    case Milestone =>
      if p.status == Recognized
      then Some(RecognitionEvent(p.periodEnd, p.scheduledAmount, MilestoneEvent, Some(index))) else None
    case UsageBased =>
      if p.recognizedAmount > 0.0
      then Some(RecognitionEvent(p.periodEnd, p.recognizedAmount, UsageEvent, Some(index))) else None
  }

  function EventsFor(schedules: seq<SchedulePeriod>, today: Day): seq<RecognitionEvent> {
    if schedules == [] then []
    else
      var k := |schedules| - 1;
      var earlier := EventsFor(schedules[..k], today);
      match EventFor(schedules[k], k, today)
      case Some(e) => earlier + [e]
      case None => earlier
  }

  method CreateRecognitionEvents(schedules: seq<SchedulePeriod>, asOfDate: Option<Day>, now: Day)
    returns (events: seq<RecognitionEvent>)
    ensures events == EventsFor(schedules, asOfDate.GetOr(now))
  {
    events := [];
    var today := asOfDate.GetOr(now);
    assert schedules[..0] == [];
    for i := 0 to |schedules|
      invariant events == EventsFor(schedules[..i], today)
    {
      var schedule := schedules[i];
      assert schedules[..i + 1][..i] == schedules[..i];
      match schedule.recognitionMethod {
        case StraightLine =>
          if schedule.periodEnd <= today {
            events := events +
              [RecognitionEvent(schedule.periodEnd, schedule.scheduledAmount, ScheduledEvent, Some(i))];
          }
        case AsInvoiced =>
          if schedule.recognizedAmount > 0.0 {
            events := events +
              [RecognitionEvent(schedule.periodStart, schedule.recognizedAmount, ScheduledEvent, Some(i))];
          }
        case Milestone =>
          if schedule.status == Recognized {
            events := events +
              [RecognitionEvent(schedule.periodEnd, schedule.scheduledAmount, MilestoneEvent, Some(i))];
          }
        case UsageBased =>
          if schedule.recognizedAmount > 0.0 {
            events := events +
              [RecognitionEvent(schedule.periodEnd, schedule.recognizedAmount, UsageEvent, Some(i))];
          }
      }
    }
    assert schedules[..|schedules|] == schedules;
  }

  /** One event for each period that is due, none for the others, in period order. */
  lemma {:induction false} EventsMatchPeriods(schedules: seq<SchedulePeriod>, today: Day)
    ensures var events := EventsFor(schedules, today);
      && (forall j :: 0 <= j < |events| ==>
            && events[j].scheduleIndex.Some?
            && var i := events[j].scheduleIndex.value;
               i < |schedules| && EventFor(schedules[i], i, today) == Some(events[j]))
      && (forall j, k :: 0 <= j < k < |events| ==> events[j].scheduleIndex.value < events[k].scheduleIndex.value)
      && (forall i :: 0 <= i < |schedules| && EventFor(schedules[i], i, today).Some? ==>
            EventFor(schedules[i], i, today).value in events)
  {
    hide EventFor;
    if schedules != [] {
      var k := |schedules| - 1;
      EventsMatchPeriods(schedules[..k], today);
      assert forall i :: 0 <= i < k ==> schedules[..k][i] == schedules[i];
    }
  }

  // ---------- Summing events ----------

  /** `events.filter(p).reduce((sum, e) => sum + e.recognizedAmount, 0)` */
  function SumWhere(events: seq<RecognitionEvent>, p: RecognitionEvent -> bool): real {
    if events == [] then 0.0
    else
      var k := |events| - 1;
      SumWhere(events[..k], p) + if p(events[k]) then events[k].recognizedAmount else 0.0
  }

  /** Two filters that between them pass what a third one passes. */
  lemma {:induction false} SumWhereSplits(
    events: seq<RecognitionEvent>,
    whole: RecognitionEvent -> bool, left: RecognitionEvent -> bool, right: RecognitionEvent -> bool)
    requires forall e :: e in events ==> (whole(e) <==> left(e) || right(e)) && !(left(e) && right(e))
    ensures SumWhere(events, whole) == SumWhere(events, left) + SumWhere(events, right)
  {
    if events != [] {
      var k := |events| - 1;
      assert events[k] in events;
      SumWhereSplits(events[..k], whole, left, right);
    }
  }

  lemma {:induction false} SumWhereSame(
    events: seq<RecognitionEvent>, p: RecognitionEvent -> bool, q: RecognitionEvent -> bool)
    requires forall e :: e in events ==> p(e) == q(e)
    ensures SumWhere(events, p) == SumWhere(events, q)
  {
    if events != [] {
      assert events[|events| - 1] in events;
      SumWhereSame(events[..|events| - 1], p, q);
    }
  }

  lemma {:induction false} SumWhereCents(events: seq<RecognitionEvent>, p: RecognitionEvent -> bool)
    requires CentEvents(events)
    ensures IsCents(SumWhere(events, p))
  {
    if events != [] {
      var k := |events| - 1;
      SumWhereCents(events[..k], p);
      var rest := SumWhere(events[..k], p);
      CentsClosed(rest, events[k].recognizedAmount);
      hide IsCents;
      assert rest + 0.0 == rest;
    }
  }

  ghost predicate CentEvents(events: seq<RecognitionEvent>) {
    forall i :: 0 <= i < |events| ==> IsCents(events[i].recognizedAmount)
  }

  function OnOrBefore(date: Day): RecognitionEvent -> bool {
    (e: RecognitionEvent) => e.eventDate <= date
  }

  function CalculateCumulativeRecognized(events: seq<RecognitionEvent>, asOfDate: Option<Day>, now: Day): real {
    SumWhere(events, OnOrBefore(asOfDate.GetOr(now)))
  }

  // ---------- Applying events to a period ----------

  function ForSchedule(index: nat): RecognitionEvent -> bool {
    (e: RecognitionEvent) => e.scheduleIndex == Some(index)
  }

  function ApplyEventsToSchedule(schedule: SchedulePeriod, events: seq<RecognitionEvent>, index: nat): SchedulePeriod {
    var recognized := SumWhere(events, ForSchedule(index));
    var recognizedAmount := Max(0.0, Min(recognized, schedule.scheduledAmount));
    var deferredAmount := schedule.scheduledAmount - recognizedAmount;
    var status :=
      if recognizedAmount >= schedule.scheduledAmount then Recognized
      else if recognizedAmount > 0.0 then Partial
      else schedule.status;
    schedule.(recognizedAmount := Round2(recognizedAmount), deferredAmount := Round2(deferredAmount), status := status)
  }

  /**
   * On whole cents, recognised plus deferred is what was scheduled, recognised stays between zero
   * and a non-negative scheduled amount, and applying the same events again changes nothing.
   */
  lemma ApplyEventsConserves(schedule: SchedulePeriod, events: seq<RecognitionEvent>, index: nat)
    requires IsCents(schedule.scheduledAmount) && CentEvents(events)
    ensures var applied := ApplyEventsToSchedule(schedule, events, index);
      && applied.recognizedAmount + applied.deferredAmount == applied.scheduledAmount == schedule.scheduledAmount
      && applied.recognizedAmount == Max(0.0, Min(SumWhere(events, ForSchedule(index)), schedule.scheduledAmount))
      && applied.status ==
           (if applied.deferredAmount <= 0.0 then Recognized
            else if applied.recognizedAmount > 0.0 then Partial else schedule.status)
      && applied == schedule.(recognizedAmount := applied.recognizedAmount, deferredAmount := applied.deferredAmount,
                              status := applied.status)
      && ApplyEventsToSchedule(applied, events, index) == applied
  {
    var recognized := SumWhere(events, ForSchedule(index));
    SumWhereCents(events, ForSchedule(index));
    var recognizedAmount := Max(0.0, Min(recognized, schedule.scheduledAmount));
    CentsClosed(recognized, recognized);
    hide SumWhere;
    CentsClosed(schedule.scheduledAmount, recognizedAmount);
    RoundShift(0.0, recognizedAmount);
    RoundShift(0.0, schedule.scheduledAmount - recognizedAmount);
    hide Round2, IsCents;
  }

  // ---------- Three views of recognised revenue ----------

  /** What a straight-line schedule has scheduled up to a date. */
  function DueBy(periods: seq<SchedulePeriod>, date: Day): real {
    if periods == [] then 0.0
    else
      var k := |periods| - 1;
      DueBy(periods[..k], date) + if periods[k].periodEnd <= date then periods[k].scheduledAmount else 0.0
  }

  ghost predicate AllStraightLine(periods: seq<SchedulePeriod>) {
    forall i :: 0 <= i < |periods| ==> periods[i].recognitionMethod == StraightLine
  }

  /** Events summed by date give what is due by the earlier of that date and the as-of date. */
  lemma {:induction false} CumulativeIsDue(periods: seq<SchedulePeriod>, today: Day, cutoff: Day)
    requires AllStraightLine(periods)
    ensures SumWhere(EventsFor(periods, today), OnOrBefore(cutoff)) ==
      DueBy(periods, if today <= cutoff then today else cutoff)
  {
    if periods != [] {
      var k := |periods| - 1;
      CumulativeIsDue(periods[..k], today, cutoff);
      var earlier := EventsFor(periods[..k], today);
      if EventFor(periods[k], k, today).Some? {
        var e := EventFor(periods[k], k, today).value;
        assert (earlier + [e])[..|earlier|] == earlier;
      }
    }
  }

  /** Events summed by period give back the period's own amount if it is due. */
  lemma {:induction false} RecognizedPerPeriod(periods: seq<SchedulePeriod>, today: Day, i: nat)
    requires AllStraightLine(periods)
    ensures SumWhere(EventsFor(periods, today), ForSchedule(i)) ==
      if i < |periods| && periods[i].periodEnd <= today then periods[i].scheduledAmount else 0.0
  {
    if periods != [] {
      var k := |periods| - 1;
      RecognizedPerPeriod(periods[..k], today, i);
      var earlier := EventsFor(periods[..k], today);
      if EventFor(periods[k], k, today).Some? {
        var e := EventFor(periods[k], k, today).value;
        assert (earlier + [e])[..|earlier|] == earlier;
      }
    }
  }

  /** The recognised amounts of the periods of a schedule after its events are applied to it. */
  function AppliedAmounts(periods: seq<SchedulePeriod>, events: seq<RecognitionEvent>): (amounts: seq<real>)
    ensures |amounts| == |periods|
    ensures forall i :: 0 <= i < |periods| ==>
      amounts[i] == ApplyEventsToSchedule(periods[i], events, i).recognizedAmount
  {
    seq(|periods|, i requires 0 <= i < |periods| => ApplyEventsToSchedule(periods[i], events, i).recognizedAmount)
  }

  ghost predicate CentAmounts(periods: seq<SchedulePeriod>) {
    forall i :: 0 <= i < |periods| ==> IsCents(periods[i].scheduledAmount)
  }

  lemma {:induction false} EventsAreCents(periods: seq<SchedulePeriod>, today: Day)
    requires AllStraightLine(periods) && CentAmounts(periods)
    ensures CentEvents(EventsFor(periods, today))
  {
    hide IsCents;
    if periods != [] {
      EventsAreCents(periods[..|periods| - 1], today);
    }
  }

  lemma AppliedAmount(periods: seq<SchedulePeriod>, today: Day, i: nat)
    requires AllStraightLine(periods) && CentAmounts(periods) && i < |periods|
    ensures AppliedAmounts(periods, EventsFor(periods, today))[i] ==
      if periods[i].periodEnd <= today then Max(0.0, periods[i].scheduledAmount) else 0.0
  {
    var events := EventsFor(periods, today);
    EventsAreCents(periods, today);
    ApplyEventsConserves(periods[i], events, i);
    RecognizedPerPeriod(periods, today, i);
  }

  lemma {:induction false} AppliedVersusDue(amounts: seq<real>, periods: seq<SchedulePeriod>, today: Day)
    requires |amounts| == |periods|
    requires forall i :: 0 <= i < |periods| ==>
      amounts[i] == if periods[i].periodEnd <= today then Max(0.0, periods[i].scheduledAmount) else 0.0
    ensures Sum(amounts) >= DueBy(periods, today)
    ensures Sum(amounts) == DueBy(periods, today) <==>
      forall i :: 0 <= i < |periods| && periods[i].periodEnd <= today ==> periods[i].scheduledAmount >= 0.0
  {
    if periods != [] {
      var k := |periods| - 1;
      AppliedVersusDue(amounts[..k], periods[..k], today);
      assert forall i :: 0 <= i < k ==> periods[..k][i] == periods[i];
    }
  }

  /**
   * Adding up the periods after their own events are applied gives the cumulative recognised
   * amount if and only if no period that is due has a negative amount; `applyEventsToSchedule`
   * recognises nothing of a negative one.
   */
  lemma PeriodViewIsEventView(periods: seq<SchedulePeriod>, asOfDate: Option<Day>, now: Day)
    requires AllStraightLine(periods) && CentAmounts(periods)
    ensures var (events, today) := (EventsFor(periods, asOfDate.GetOr(now)), asOfDate.GetOr(now));
      Sum(AppliedAmounts(periods, events)) == CalculateCumulativeRecognized(events, asOfDate, now) <==>
      forall i :: 0 <= i < |periods| && periods[i].periodEnd <= today ==> periods[i].scheduledAmount >= 0.0
  {
    var today := asOfDate.GetOr(now);
    var events := EventsFor(periods, today);
    forall i | 0 <= i < |periods|
      ensures AppliedAmounts(periods, events)[i] ==
        if periods[i].periodEnd <= today then Max(0.0, periods[i].scheduledAmount) else 0.0
    {
      AppliedAmount(periods, today, i);
    }
    AppliedVersusDue(AppliedAmounts(periods, events), periods, today);
    CumulativeIsDue(periods, today, today);
  }

  // ---------- What each kind of period gives rise to ----------

  /**
   * Straight-line periods are recognised at their end once it has passed, milestones at their end
   * once they are complete, both with the scheduled amount; as-invoiced and usage periods with what
   * they have recognised, if that is positive, at their start and at their end.
   */
  lemma EventOfPeriod(p: SchedulePeriod, index: nat, today: Day)
    ensures var (event, how) := (EventFor(p, index, today), p.recognitionMethod);
      && (how == StraightLine ==> (event.Some? <==> today >= p.periodEnd))
      && (how == Milestone ==> (event.Some? <==> p.status == Recognized))
      && (how == AsInvoiced || how == UsageBased ==> (event.Some? <==> p.recognizedAmount > 0.0))
      && (event.Some? ==>
            && event.value.eventDate == (if how == AsInvoiced then p.periodStart else p.periodEnd)
            && event.value.recognizedAmount ==
                 (if how == StraightLine || how == Milestone then p.scheduledAmount else p.recognizedAmount)
            && (event.value.eventType == MilestoneEvent <==> how == Milestone)
            && (event.value.eventType == UsageEvent <==> how == UsageBased)
            && (event.value.eventType == ScheduledEvent <==> how == StraightLine || how == AsInvoiced))
  {
  }
}
