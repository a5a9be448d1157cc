/** The entities that the revenue-recognition pipeline passes along (packages/revrec/src/types.ts). */
module RevRecTypes {
  import opened Wrappers
  import opened Calendar

  datatype RecognitionMethod = StraightLine | UsageBased | Milestone | AsInvoiced

  datatype ObligationType = Subscription | Usage | OneTime | ProfessionalServices | Support

  datatype IdentifiedObligation = IdentifiedObligation(
    obligationType: ObligationType,
    transactionPrice: real,
    standaloneSellingPrice: Option<real>,
    serviceStartDate: Day,
    serviceEndDate: Day,
    sourceTermIds: seq<string>,
    recognitionMethod: RecognitionMethod)

  datatype ScheduleStatus = Pending | Partial | Recognized | Cancelled

  datatype SchedulePeriod = SchedulePeriod(
    periodStart: Day,
    periodEnd: Day,
    scheduledAmount: real,
    recognizedAmount: real,
    deferredAmount: real,
    periodDays: int,
    dailyRate: real,
    recognitionMethod: RecognitionMethod,
    status: ScheduleStatus)

  datatype EventType = ScheduledEvent | UsageEvent | MilestoneEvent | Adjustment | Cancellation | Amendment

  datatype RecognitionEvent = RecognitionEvent(
    eventDate: Day,
    recognizedAmount: real,
    eventType: EventType,
    scheduleIndex: Option<nat>)

  datatype DeferredBalance = DeferredBalance(
    periodEnd: Day,
    openingBalance: real,
    additions: real,
    recognized: real,
    adjustments: real,
    closingBalance: real)

  /** The scheduled amounts of a schedule, in order. */
  function Amounts(periods: seq<SchedulePeriod>): (amounts: seq<real>)
    ensures |amounts| == |periods|
    ensures forall i :: 0 <= i < |periods| ==> amounts[i] == periods[i].scheduledAmount
  {
    seq(|periods|, i requires 0 <= i < |periods| => periods[i].scheduledAmount)
  }
}
