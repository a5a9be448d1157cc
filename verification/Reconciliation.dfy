/** Schedules against invoices, period by period (packages/revrec/src/reconciliation.ts). */
module Reconciliation {
  import opened Wrappers
  import opened Sequences
  import opened Money
  import opened Calendar
  import opened RevRecTypes
  import opened PeriodKey
  import Sorting

  datatype ReconciliationConfig = ReconciliationConfig(
    amountVarianceThreshold: real,
    amountVariancePctThreshold: real,
    timingVarianceDays: int)

  const DEFAULT_RECONCILIATION_CONFIG := ReconciliationConfig(100.0, 0.01, 30)

  datatype InvoiceInput = InvoiceInput(
    id: string,
    invoiceDate: Day,
    total: real,
    periodStart: Option<Day>,
    periodEnd: Option<Day>)

  datatype ReconciliationStatus = Matched | TimingVariance | AmountVariance | MissingInvoice | Unmatched

  /** One row of the result; its dates are read back from the period's key. */
  datatype Row = Row(
    periodStart: Option<Day>,
    periodEnd: Option<Day>,
    status: ReconciliationStatus,
    scheduledAmount: real,
    invoicedAmount: real,
    varianceAmount: real,
    variancePct: Option<real>)

  datatype Summary = Summary(
    matched: nat, timingVariance: nat, amountVariance: nat, missingInvoice: nat, unmatched: nat)

  // ---------- Grouping by period ----------

  function ScheduleKey(s: SchedulePeriod): string {
    GetPeriodKey(s.periodStart, s.periodEnd)
  }

  function InvoiceKey(i: InvoiceInput): string {
    GetPeriodKey(i.periodStart.GetOr(i.invoiceDate), i.periodEnd.GetOr(i.invoiceDate))
  }

  function KeysOf<T>(items: seq<T>, keyOf: T -> string): (keys: seq<string>)
    ensures |keys| == |items|
    ensures forall i :: 0 <= i < |items| ==> keys[i] == keyOf(items[i])
  {
    seq(|items|, i requires 0 <= i < |items| => keyOf(items[i]))
  }

  function HasKey<T>(keyOf: T -> string, key: string): T -> bool {
    (item: T) => keyOf(item) == key
  }

  /** The items of one period, in order. */
  function Group<T>(items: seq<T>, keyOf: T -> string, key: string): seq<T> {
    Filter(HasKey(keyOf, key), items)
  }

  /** A record from keys to non-empty groups, and its keys in insertion order. */
  ghost predicate IsGrouping<T>(
    order: seq<string>, groups: map<string, seq<T>>, items: seq<T>, keyOf: T -> string)
  {
    && order == Distinct(KeysOf(items, keyOf))
    && (forall k :: k in groups <==> k in order)
    && forall k :: (if k in groups then groups[k] else []) == Group(items, keyOf, k)
  }

  lemma NothingGrouped<T(!new)>(items: seq<T>, keyOf: T -> string)
    ensures IsGrouping([], map[], items[..0], keyOf)
  {
  }

  lemma KeysStep<T(!new)>(items: seq<T>, i: nat, keyOf: T -> string)
    requires i < |items|
    ensures var (before, key) := (Distinct(KeysOf(items[..i], keyOf)), keyOf(items[i]));
      Distinct(KeysOf(items[..i + 1], keyOf)) == if key in before then before else before + [key]
  {
    assert KeysOf(items[..i + 1], keyOf)[..i] == KeysOf(items[..i], keyOf);
  }

  lemma GroupStep<T(!new)>(items: seq<T>, i: nat, keyOf: T -> string, key: string)
    requires i < |items|
    ensures Group(items[..i + 1], keyOf, key) ==
            Group(items[..i], keyOf, key) + if keyOf(items[i]) == key then [items[i]] else []
  {
    FilterTake(HasKey(keyOf, key), items, i);
  }

  lemma GroupingStep<T(!new)>(
    order: seq<string>, groups: map<string, seq<T>>, items: seq<T>, i: nat, keyOf: T -> string)
    requires i < |items| && IsGrouping(order, groups, items[..i], keyOf)
    ensures var key := keyOf(items[i]);
      IsGrouping(if key in groups then order else order + [key],
                 groups[key := (if key in groups then groups[key] else []) + [items[i]]], items[..i + 1], keyOf)
  {
    hide Group, Distinct;
    KeysStep(items, i, keyOf);
    forall k ensures Group(items[..i + 1], keyOf, k) ==
                     Group(items[..i], keyOf, k) + if keyOf(items[i]) == k then [items[i]] else []
    {
      GroupStep(items, i, keyOf, k);
    }
  }

  method GroupSchedulesByPeriod(schedules: seq<SchedulePeriod>)
    returns (order: seq<string>, groups: map<string, seq<SchedulePeriod>>)
    ensures IsGrouping(order, groups, schedules, ScheduleKey)
  {
    hide IsGrouping, Distinct, Group, GetPeriodKey;
    order, groups := [], map[];
    NothingGrouped(schedules, ScheduleKey);
    for i := 0 to |schedules|
      invariant IsGrouping(order, groups, schedules[..i], ScheduleKey)
    {
      GroupingStep(order, groups, schedules, i, ScheduleKey);
      ghost var before := groups;
      var key := GetPeriodKey(schedules[i].periodStart, schedules[i].periodEnd);
      if key !in groups {
        groups := groups[key := []];
        order := order + [key];
      }
      groups := groups[key := groups[key] + [schedules[i]]];
      assert groups == before[key := (if key in before then before[key] else []) + [schedules[i]]];
    }
    assert schedules[..|schedules|] == schedules;
  }

  method GroupInvoicesByPeriod(invoices: seq<InvoiceInput>)
    returns (order: seq<string>, groups: map<string, seq<InvoiceInput>>)
    ensures IsGrouping(order, groups, invoices, InvoiceKey)
  {
    hide IsGrouping, Distinct, Group, GetPeriodKey;
    order, groups := [], map[];
    NothingGrouped(invoices, InvoiceKey);
    for i := 0 to |invoices|
      invariant IsGrouping(order, groups, invoices[..i], InvoiceKey)
    {
      GroupingStep(order, groups, invoices, i, InvoiceKey);
      ghost var before := groups;
      var invoice := invoices[i];
      var periodStart := invoice.periodStart.GetOr(invoice.invoiceDate);
      var periodEnd := invoice.periodEnd.GetOr(invoice.invoiceDate);
      var key := GetPeriodKey(periodStart, periodEnd);
      if key !in groups {
        groups := groups[key := []];
        order := order + [key];
      }
      groups := groups[key := groups[key] + [invoice]];
      assert groups == before[key := (if key in before then before[key] else []) + [invoice]];
    }
    assert invoices[..|invoices|] == invoices;
  }

  /** The periods of both sides, each once, schedules first. */
  function AllPeriods(schedules: seq<SchedulePeriod>, invoices: seq<InvoiceInput>): seq<string> {
    Distinct(Distinct(KeysOf(schedules, ScheduleKey)) + Distinct(KeysOf(invoices, InvoiceKey)))
  }

  // ---------- The status of one period ----------

  /** The invoice is dated 1 to `timingVarianceDays` days off the end of the scheduled period. */
  predicate OffByDays(s: SchedulePeriod, i: InvoiceInput, config: ReconciliationConfig) {
    var difference := DifferenceInDays(s.periodEnd, i.invoiceDate);
    0 < (if difference < 0 then -difference else difference) <= config.timingVarianceDays
  }

  /** Off by some days, and the difference divided by the scheduled amount, if there is one, is below a tenth. */
  predicate LooksLikeTiming(s: SchedulePeriod, i: InvoiceInput, config: ReconciliationConfig) {
    && OffByDays(s, i, config)
    && var amountDiff := Abs(s.scheduledAmount - i.total);
       (if s.scheduledAmount != 0.0 then amountDiff / s.scheduledAmount else 0.0) < 0.1
  }

  ghost predicate TimingMismatch(
    schedules: seq<SchedulePeriod>, invoices: seq<InvoiceInput>, config: ReconciliationConfig)
  {
    exists s, i :: 0 <= s < |schedules| && 0 <= i < |invoices| && LooksLikeTiming(schedules[s], invoices[i], config)
  }

  method CheckTimingMismatch(schedules: seq<SchedulePeriod>, invoices: seq<InvoiceInput>, config: ReconciliationConfig)
    returns (mismatch: bool)
    ensures mismatch <==> TimingMismatch(schedules, invoices, config)
  {
    for s := 0 to |schedules|
      invariant forall a, i :: 0 <= a < s && 0 <= i < |invoices| ==>
        !LooksLikeTiming(schedules[a], invoices[i], config)
    {
      var schedule := schedules[s];
      for i := 0 to |invoices|
        invariant forall b :: 0 <= b < i ==> !LooksLikeTiming(schedule, invoices[b], config)
      {
        var invoice := invoices[i];
        var difference := DifferenceInDays(schedule.periodEnd, invoice.invoiceDate);
        var daysDiff := if difference < 0 then -difference else difference;
        if daysDiff > 0 && daysDiff <= config.timingVarianceDays {
          var amountDiff := Abs(schedule.scheduledAmount - invoice.total);
          var amountPctDiff := if schedule.scheduledAmount != 0.0 then amountDiff / schedule.scheduledAmount else 0.0;
          if amountPctDiff < 0.1 {
            assert LooksLikeTiming(schedules[s], invoices[i], config);
            return true;
          }
        }
      }
    }
    return false;
  }

  predicate WithinThresholds(varianceAmount: real, variancePct: Option<real>, config: ReconciliationConfig) {
    || Abs(varianceAmount) <= config.amountVarianceThreshold
    || Abs(variancePct.GetOr(0.0)) / 100.0 <= config.amountVariancePctThreshold
  }

  ghost function StatusOf(
    varianceAmount: real, variancePct: Option<real>, schedules: seq<SchedulePeriod>, invoices: seq<InvoiceInput>,
    config: ReconciliationConfig): ReconciliationStatus
  {
    if schedules == [] && invoices != [] then Unmatched
    else if schedules != [] && invoices == [] then MissingInvoice
    else if schedules == [] && invoices == [] then Matched
    else if WithinThresholds(varianceAmount, variancePct, config) then Matched
    else if TimingMismatch(schedules, invoices, config) then TimingVariance
    else AmountVariance
  }

  method DetermineReconciliationStatus(
    varianceAmount: real, variancePct: Option<real>, schedules: seq<SchedulePeriod>, invoices: seq<InvoiceInput>,
    config: ReconciliationConfig)
    returns (status: ReconciliationStatus)
    ensures status == StatusOf(varianceAmount, variancePct, schedules, invoices, config)
  {
    hide TimingMismatch;
    if |schedules| == 0 && |invoices| > 0 {
      return Unmatched;
    }
    if |schedules| > 0 && |invoices| == 0 {
      return MissingInvoice;
    }
    if |schedules| == 0 && |invoices| == 0 {
      return Matched;
    }
    if WithinThresholds(varianceAmount, variancePct, config) {
      return Matched;
    }
    var hasTimingMismatch := CheckTimingMismatch(schedules, invoices, config);
    if hasTimingMismatch {
      return TimingVariance;
    }
    return AmountVariance;
  }

  // ---------- Rows ----------

  function Invoiced(invoices: seq<InvoiceInput>): (totals: seq<real>)
    ensures |totals| == |invoices|
    ensures forall i :: 0 <= i < |invoices| ==> totals[i] == invoices[i].total
  {
    seq(|invoices|, i requires 0 <= i < |invoices| => invoices[i].total)
  }

  function VariancePct(varianceAmount: real, scheduledAmount: real): Option<real> {
    if scheduledAmount != 0.0 then Some(Round4(varianceAmount / scheduledAmount * 100.0)) else None
  }

  ghost function RowOf(
    key: string, schedules: seq<SchedulePeriod>, invoices: seq<InvoiceInput>, config: ReconciliationConfig): Row
  {
    var (scheduled, invoiced) := (Sum(Amounts(schedules)), Sum(Invoiced(invoices)));
    var variance := Round2(invoiced - scheduled);
    var pct := VariancePct(variance, scheduled);
    Row(ParsePeriodKey(key).0, ParsePeriodKey(key).1, StatusOf(variance, pct, schedules, invoices, config),
        Round2(scheduled), Round2(invoiced), variance, pct)
  }

  /** The row of a period: all its schedules and all its invoices. */
  ghost function RowFor(
    key: string, schedules: seq<SchedulePeriod>, invoices: seq<InvoiceInput>, config: ReconciliationConfig): Row
  {
    RowOf(key, Group(schedules, ScheduleKey, key), Group(invoices, InvoiceKey, key), config)
  }

  ghost predicate AreRows(
    rows: seq<Row>, keys: seq<string>, schedules: seq<SchedulePeriod>, invoices: seq<InvoiceInput>,
    config: ReconciliationConfig)
  {
    |rows| == |keys| && forall j :: 0 <= j < |rows| ==> rows[j] == RowFor(keys[j], schedules, invoices, config)
  }

  /** `periodStart.getTime()` */
  function StartTime(row: Row): int {
    row.periodStart.GetOr(0)
  }

  function CountStatus(rows: seq<Row>, status: ReconciliationStatus): nat {
    if rows == [] then 0
    else CountStatus(rows[..|rows| - 1], status) + if rows[|rows| - 1].status == status then 1 else 0
  }

  function SummaryOf(rows: seq<Row>): Summary {
    Summary(CountStatus(rows, Matched), CountStatus(rows, TimingVariance), CountStatus(rows, AmountVariance),
            CountStatus(rows, MissingInvoice), CountStatus(rows, Unmatched))
  }

  method ReconcilePeriod(
    periodKey: string, periodSchedules: seq<SchedulePeriod>, periodInvoices: seq<InvoiceInput>,
    config: ReconciliationConfig)
    returns (row: Row)
    ensures row == RowOf(periodKey, periodSchedules, periodInvoices, config)
  {
    hide StatusOf, Round2, Sum, VariancePct, ParsePeriodKey;
    var (periodStart, periodEnd) := ParsePeriodKey(periodKey);
    var scheduledAmount := Sum(Amounts(periodSchedules));
    var invoicedAmount := Sum(Invoiced(periodInvoices));
    var varianceAmount := Round2(invoicedAmount - scheduledAmount);
    var variancePct := VariancePct(varianceAmount, scheduledAmount);
    var status := DetermineReconciliationStatus(varianceAmount, variancePct, periodSchedules, periodInvoices, config);
    row := Row(periodStart, periodEnd, status, Round2(scheduledAmount), Round2(invoicedAmount),
               varianceAmount, variancePct);
  }

  method ReconcileSchedulesWithInvoices(
    schedules: seq<SchedulePeriod>, invoices: seq<InvoiceInput>, config: ReconciliationConfig)
    returns (reconciliations: seq<Row>, summary: Summary)
    ensures exists rows :: AreRows(rows, AllPeriods(schedules, invoices), schedules, invoices, config) &&
                           reconciliations == Sorting.StableSort(rows, StartTime)
    ensures summary == SummaryOf(reconciliations)
  {
    hide RowOf, Distinct, Group;
    var scheduleOrder, schedulePeriods := GroupSchedulesByPeriod(schedules);
    var invoiceOrder, invoicePeriods := GroupInvoicesByPeriod(invoices);
    var allPeriods := Distinct(scheduleOrder + invoiceOrder);
    var rows := [];
    for i := 0 to |allPeriods|
      invariant |rows| == i
      invariant forall j :: 0 <= j < i ==> rows[j] == RowFor(allPeriods[j], schedules, invoices, config)
    {
      var periodKey := allPeriods[i];
      var periodSchedules := if periodKey in schedulePeriods then schedulePeriods[periodKey] else [];
      var periodInvoices := if periodKey in invoicePeriods then invoicePeriods[periodKey] else [];
      assert periodSchedules == Group(schedules, ScheduleKey, periodKey);
      assert periodInvoices == Group(invoices, InvoiceKey, periodKey);
      var row := ReconcilePeriod(periodKey, periodSchedules, periodInvoices, config);
      rows := rows + [row];
    }
    assert AreRows(rows, AllPeriods(schedules, invoices), schedules, invoices, config);
    reconciliations := Sorting.StableSort(rows, StartTime);
    summary := SummaryOf(reconciliations);
  }

  // ---------- Every item is in one row ----------

  lemma PeriodsCover(schedules: seq<SchedulePeriod>, invoices: seq<InvoiceInput>)
    ensures NoDuplicates(AllPeriods(schedules, invoices))
    ensures forall s :: s in schedules ==> ScheduleKey(s) in AllPeriods(schedules, invoices)
    ensures forall i :: i in invoices ==> InvoiceKey(i) in AllPeriods(schedules, invoices)
  {
    var a, b := KeysOf(schedules, ScheduleKey), KeysOf(invoices, InvoiceKey);
    hide GetPeriodKey;
    DistinctMembers(a);
    DistinctMembers(b);
    DistinctMembers(Distinct(a) + Distinct(b));
    hide Distinct;
    forall s | s in schedules ensures ScheduleKey(s) in AllPeriods(schedules, invoices) {
      var j :| 0 <= j < |schedules| && schedules[j] == s;
      assert a[j] in a;
    }
    forall i | i in invoices ensures InvoiceKey(i) in AllPeriods(schedules, invoices) {
      var j :| 0 <= j < |invoices| && invoices[j] == i;
      assert b[j] in b;
    }
  }

  /** Each item is in the group of exactly one of a list of distinct keys that covers it. */
  lemma InOneGroup<T(!new)>(keys: seq<string>, items: seq<T>, keyOf: T -> string, item: T)
    requires NoDuplicates(keys) && item in items && keyOf(item) in keys
    ensures exists j :: 0 <= j < |keys| && item in Group(items, keyOf, keys[j])
    ensures forall j, k :: 0 <= j < k < |keys| ==>
      !(item in Group(items, keyOf, keys[j]) && item in Group(items, keyOf, keys[k]))
  {
    forall k ensures item in Group(items, keyOf, k) <==> keyOf(item) == k {
      FilterMembers(HasKey(keyOf, k), items);
      assert HasKey(keyOf, k)(item) <==> keyOf(item) == k;
    }
    var j :| 0 <= j < |keys| && keys[j] == keyOf(item);
  }

  // ---------- Money is partitioned ----------

  function Values<T>(items: seq<T>, value: T -> real): (values: seq<real>)
    ensures |values| == |items|
    ensures forall i :: 0 <= i < |items| ==> values[i] == value(items[i])
  {
    seq(|items|, i requires 0 <= i < |items| => value(items[i]))
  }

  /** The totals of the groups, key by key. */
  function GroupTotals<T>(keys: seq<string>, items: seq<T>, keyOf: T -> string, value: T -> real): (totals: seq<real>)
    ensures |totals| == |keys|
    ensures forall j :: 0 <= j < |keys| ==> totals[j] == Sum(Values(Group(items, keyOf, keys[j]), value))
  {
    seq(|keys|, j requires 0 <= j < |keys| => Sum(Values(Group(items, keyOf, keys[j]), value)))
  }

  lemma {:induction false} SumZeros(s: seq<real>)
    requires forall i :: 0 <= i < |s| ==> s[i] == 0.0
    ensures Sum(s) == 0.0
  {
    if s != [] {
      SumZeros(s[..|s| - 1]);
    }
  }

  /** Adding to one element adds to the sum. */
  lemma {:induction false} SumBump(s: seq<real>, t: seq<real>, j: nat, x: real)
    requires |s| == |t| && j < |s| && t == s[j := s[j] + x]
    ensures Sum(t) == Sum(s) + x
  {
    var k := |s| - 1;
    if j < k {
      SumBump(s[..k], t[..k], j, x);
    } else {
      assert t[..k] == s[..k];
    }
  }

  lemma ValuesPush<T>(items: seq<T>, x: T, value: T -> real)
    ensures Sum(Values(items + [x], value)) == Sum(Values(items, value)) + value(x)
  {
    assert Values(items + [x], value) == Values(items, value) + [value(x)];
    SumPush(Values(items, value), value(x));
  }

  /** The last item adds to the total of its own group only. */
  lemma GroupTotalStep<T(!new)>(items: seq<T>, keyOf: T -> string, value: T -> real, key: string)
    requires items != []
    ensures var (last, earlier) := (items[|items| - 1], items[..|items| - 1]);
      Sum(Values(Group(items, keyOf, key), value)) ==
      Sum(Values(Group(earlier, keyOf, key), value)) + if keyOf(last) == key then value(last) else 0.0
  {
    var last, g := items[|items| - 1], Group(items[..|items| - 1], keyOf, key);
    hide Sum;
    if keyOf(last) == key {
      ValuesPush(g, last, value);
    }
  }

  lemma {:induction false} GroupsPartition<T(!new)>(
    keys: seq<string>, items: seq<T>, keyOf: T -> string, value: T -> real)
    requires NoDuplicates(keys)
    requires forall i :: 0 <= i < |items| ==> keyOf(items[i]) in keys
    ensures Sum(GroupTotals(keys, items, keyOf, value)) == Sum(Values(items, value))
  {
    if items == [] {
      SumZeros(GroupTotals(keys, items, keyOf, value));
    } else {
      var n := |items| - 1;
      GroupsPartition(keys, items[..n], keyOf, value);
      GroupTotalsStep(keys, items, keyOf, value);
      assert Values(items, value)[..n] == Values(items[..n], value);
    }
  }

  lemma GroupTotalsStep<T(!new)>(keys: seq<string>, items: seq<T>, keyOf: T -> string, value: T -> real)
    requires NoDuplicates(keys) && items != [] && keyOf(items[|items| - 1]) in keys
    ensures Sum(GroupTotals(keys, items, keyOf, value)) ==
            Sum(GroupTotals(keys, items[..|items| - 1], keyOf, value)) + value(items[|items| - 1])
  {
    hide Sum, Group;
    var last, earlier := items[|items| - 1], items[..|items| - 1];
    var j :| 0 <= j < |keys| && keys[j] == keyOf(last);
    var before, after := GroupTotals(keys, earlier, keyOf, value), GroupTotals(keys, items, keyOf, value);
    forall k | 0 <= k < |keys| ensures after[k] == if k == j then before[k] + value(last) else before[k] {
      GroupTotalStep(items, keyOf, value, keys[k]);
    }
    SumBump(before, after, j, value(last));
  }

  // ---------- What a reconciliation adds up to ----------

  function ScheduledIn(row: Row): real { row.scheduledAmount }

  function InvoicedIn(row: Row): real { row.invoicedAmount }

  function VarianceIn(row: Row): real { row.varianceAmount }

  lemma {:induction false} InsertKeepsSum(x: Row, s: seq<Row>, value: Row -> real)
    ensures Sum(Values(Sorting.Insert(x, s, StartTime), value)) == Sum(Values(s, value)) + value(x)
  {
    hide Sum, StartTime;
    ValuesPush(s, x, value);
    if s != [] {
      var k := |s| - 1;
      InsertKeepsSum(x, s[..k], value);
      ValuesPush(Sorting.Insert(x, s[..k], StartTime), s[k], value);
      ValuesPush(s[..k], s[k], value);
      assert s[..k] + [s[k]] == s;
    }
  }

  lemma {:induction false} SortKeepsSum(s: seq<Row>, value: Row -> real)
    ensures Sum(Values(Sorting.StableSort(s, StartTime), value)) == Sum(Values(s, value))
  {
    if s != [] {
      var k := |s| - 1;
      SortKeepsSum(s[..k], value);
      InsertKeepsSum(s[k], Sorting.StableSort(s[..k], StartTime), value);
      assert Values(s, value)[..k] == Values(s[..k], value);
    }
  }

  function AmountOf(s: SchedulePeriod): real { s.scheduledAmount }

  function TotalOf(i: InvoiceInput): real { i.total }

  ghost predicate CentInputs(schedules: seq<SchedulePeriod>, invoices: seq<InvoiceInput>) {
    && (forall i :: 0 <= i < |schedules| ==> IsCents(schedules[i].scheduledAmount))
    && forall i :: 0 <= i < |invoices| ==> IsCents(invoices[i].total)
  }

  lemma GroupCents(schedules: seq<SchedulePeriod>, invoices: seq<InvoiceInput>, key: string)
    requires CentInputs(schedules, invoices)
    ensures IsCents(Sum(Amounts(Group(schedules, ScheduleKey, key))))
    ensures IsCents(Sum(Invoiced(Group(invoices, InvoiceKey, key))))
  {
    var s, i := Group(schedules, ScheduleKey, key), Group(invoices, InvoiceKey, key);
    FilterMembers(HasKey(ScheduleKey, key), schedules);
    FilterMembers(HasKey(InvoiceKey, key), invoices);
    hide IsCents, Filter;
    forall j | 0 <= j < |s| ensures IsCents(s[j].scheduledAmount) {
      assert s[j] in s;
    }
    forall j | 0 <= j < |i| ensures IsCents(i[j].total) {
      assert i[j] in i;
    }
    SumCents(Amounts(s));
    SumCents(Invoiced(i));
  }

  lemma RowAmounts(
    key: string, schedules: seq<SchedulePeriod>, invoices: seq<InvoiceInput>, config: ReconciliationConfig)
    requires CentInputs(schedules, invoices)
    ensures var (row, s, i) := (RowFor(key, schedules, invoices, config),
                                Group(schedules, ScheduleKey, key), Group(invoices, InvoiceKey, key));
      && row.scheduledAmount == Sum(Values(s, AmountOf))
      && row.invoicedAmount == Sum(Values(i, TotalOf))
      && row.varianceAmount == row.invoicedAmount - row.scheduledAmount
  {
    hide IsCents, Group, Sum, Round2, StatusOf, ParsePeriodKey, VariancePct;
    GroupCents(schedules, invoices, key);
    var s, i := Group(schedules, ScheduleKey, key), Group(invoices, InvoiceKey, key);
    assert Amounts(s) == Values(s, AmountOf);
    assert Invoiced(i) == Values(i, TotalOf);
    CentDifference(Sum(Invoiced(i)), Sum(Amounts(s)));
  }

  lemma CentDifference(a: real, b: real)
    requires IsCents(a) && IsCents(b)
    ensures Round2(a) == a && Round2(b) == b && Round2(a - b) == a - b
  {
    CentsClosed(a, b);
    RoundShift(0.0, a);
    RoundShift(0.0, b);
    RoundShift(0.0, a - b);
  }

  /**
   * On whole cents the rows partition the money: their scheduled amounts add up to all schedules,
   * their invoiced amounts to all invoices, and their variances to the difference.
   */
  lemma ReconciliationPartitions(
    rows: seq<Row>, schedules: seq<SchedulePeriod>, invoices: seq<InvoiceInput>, config: ReconciliationConfig)
    requires AreRows(rows, AllPeriods(schedules, invoices), schedules, invoices, config)
    requires CentInputs(schedules, invoices)
    ensures var sorted := Sorting.StableSort(rows, StartTime);
      && Sum(Values(sorted, ScheduledIn)) == Sum(Values(schedules, AmountOf))
      && Sum(Values(sorted, InvoicedIn)) == Sum(Values(invoices, TotalOf))
      && Sum(Values(sorted, VarianceIn)) == Sum(Values(invoices, TotalOf)) - Sum(Values(schedules, AmountOf))
  {
    var keys := AllPeriods(schedules, invoices);
    PeriodsCover(schedules, invoices);
    hide AllPeriods, RowFor, ScheduleKey, InvoiceKey, Sum, Group, IsCents, Sorting.StableSort;
    GroupsPartition(keys, schedules, ScheduleKey, AmountOf);
    GroupsPartition(keys, invoices, InvoiceKey, TotalOf);
    SortKeepsSum(rows, ScheduledIn);
    SortKeepsSum(rows, InvoicedIn);
    SortKeepsSum(rows, VarianceIn);
    forall j | 0 <= j < |rows|
      ensures Values(rows, ScheduledIn)[j] == GroupTotals(keys, schedules, ScheduleKey, AmountOf)[j]
      ensures Values(rows, InvoicedIn)[j] == GroupTotals(keys, invoices, InvoiceKey, TotalOf)[j]
      ensures Values(rows, InvoicedIn)[j] == Values(rows, ScheduledIn)[j] + Values(rows, VarianceIn)[j]
    {
      RowAmounts(keys[j], schedules, invoices, config);
    }
    assert Values(rows, ScheduledIn) == GroupTotals(keys, schedules, ScheduleKey, AmountOf);
    assert Values(rows, InvoicedIn) == GroupTotals(keys, invoices, InvoiceKey, TotalOf);
    SumPointwise(Values(rows, ScheduledIn), Values(rows, VarianceIn), Values(rows, InvoicedIn));
  }

  lemma RowRounding(
    key: string, schedules: seq<SchedulePeriod>, invoices: seq<InvoiceInput>, config: ReconciliationConfig)
    ensures var row := RowFor(key, schedules, invoices, config);
      && Abs(row.scheduledAmount - Sum(Values(Group(schedules, ScheduleKey, key), AmountOf))) <= 0.005
      && Abs(row.invoicedAmount - Sum(Values(Group(invoices, InvoiceKey, key), TotalOf))) <= 0.005
  {
    hide Group, Sum, StatusOf, ParsePeriodKey, VariancePct;
    var s, i := Group(schedules, ScheduleKey, key), Group(invoices, InvoiceKey, key);
    assert Amounts(s) == Values(s, AmountOf);
    assert Invoiced(i) == Values(i, TotalOf);
  }

  lemma {:induction false} SumsWithin(s: seq<real>, t: seq<real>)
    requires |s| == |t| && forall i :: 0 <= i < |s| ==> Abs(s[i] - t[i]) <= 0.005
    ensures Abs(Sum(s) - Sum(t)) <= 0.005 * |s| as real
  {
    if s != [] {
      SumsWithin(s[..|s| - 1], t[..|t| - 1]);
    }
  }

  lemma TotalsWithin(rows: seq<real>, totals: seq<real>, sorted: real, all: real)
    requires |rows| == |totals| && forall i :: 0 <= i < |rows| ==> Abs(rows[i] - totals[i]) <= 0.005
    requires sorted == Sum(rows) && all == Sum(totals)
    ensures Abs(sorted - all) <= 0.005 * |rows| as real
  {
    SumsWithin(rows, totals);
  }

  lemma GroupTotalsAddUp(schedules: seq<SchedulePeriod>, invoices: seq<InvoiceInput>)
    ensures var keys := AllPeriods(schedules, invoices);
      && Sum(GroupTotals(keys, schedules, ScheduleKey, AmountOf)) == Sum(Values(schedules, AmountOf))
      && Sum(GroupTotals(keys, invoices, InvoiceKey, TotalOf)) == Sum(Values(invoices, TotalOf))
  {
    PeriodsCover(schedules, invoices);
    hide AllPeriods, ScheduleKey, InvoiceKey, Sum, Group;
    var keys := AllPeriods(schedules, invoices);
    GroupsPartition(keys, schedules, ScheduleKey, AmountOf);
    GroupsPartition(keys, invoices, InvoiceKey, TotalOf);
  }

  lemma ScheduledWithin(
    rows: seq<Row>, schedules: seq<SchedulePeriod>, invoices: seq<InvoiceInput>, config: ReconciliationConfig)
    requires AreRows(rows, AllPeriods(schedules, invoices), schedules, invoices, config)
    ensures Abs(Sum(Values(rows, ScheduledIn)) - Sum(Values(schedules, AmountOf))) <= 0.005 * |rows| as real
  {
    var keys := AllPeriods(schedules, invoices);
    hide AllPeriods, RowFor, ScheduleKey, InvoiceKey, Sum, Group, Abs, AreRows;
    RowsRounding(rows, keys, schedules, invoices, config);
    GroupTotalsAddUp(schedules, invoices);
    TotalsWithin(Values(rows, ScheduledIn), GroupTotals(keys, schedules, ScheduleKey, AmountOf),
                 Sum(Values(rows, ScheduledIn)), Sum(Values(schedules, AmountOf)));
  }

  lemma InvoicedWithin(
    rows: seq<Row>, schedules: seq<SchedulePeriod>, invoices: seq<InvoiceInput>, config: ReconciliationConfig)
    requires AreRows(rows, AllPeriods(schedules, invoices), schedules, invoices, config)
    ensures Abs(Sum(Values(rows, InvoicedIn)) - Sum(Values(invoices, TotalOf))) <= 0.005 * |rows| as real
  {
    var keys := AllPeriods(schedules, invoices);
    hide AllPeriods, RowFor, ScheduleKey, InvoiceKey, Sum, Group, Abs, AreRows;
    RowsRounding(rows, keys, schedules, invoices, config);
    GroupTotalsAddUp(schedules, invoices);
    TotalsWithin(Values(rows, InvoicedIn), GroupTotals(keys, invoices, InvoiceKey, TotalOf),
                 Sum(Values(rows, InvoicedIn)), Sum(Values(invoices, TotalOf)));
  }

  /** On any amounts the rows are off by at most half a cent each, and so are their variances. */
  lemma ReconciliationWithinRounding(
    rows: seq<Row>, schedules: seq<SchedulePeriod>, invoices: seq<InvoiceInput>, config: ReconciliationConfig)
    requires AreRows(rows, AllPeriods(schedules, invoices), schedules, invoices, config)
    ensures var sorted := Sorting.StableSort(rows, StartTime);
      && Abs(Sum(Values(sorted, ScheduledIn)) - Sum(Values(schedules, AmountOf))) <= 0.005 * |rows| as real
      && Abs(Sum(Values(sorted, InvoicedIn)) - Sum(Values(invoices, TotalOf))) <= 0.005 * |rows| as real
      && Abs(Sum(Values(sorted, VarianceIn)) -
             (Sum(Values(invoices, TotalOf)) - Sum(Values(schedules, AmountOf)))) <= 0.005 * |rows| as real
  {
    hide AllPeriods, RowFor, Sum, Sorting.StableSort, Abs, AreRows;
    ScheduledWithin(rows, schedules, invoices, config);
    InvoicedWithin(rows, schedules, invoices, config);
    VarianceWithin(rows, schedules, invoices, config);
    SortKeepsSum(rows, ScheduledIn);
    SortKeepsSum(rows, InvoicedIn);
    SortKeepsSum(rows, VarianceIn);
  }

  lemma RowVariance(
    key: string, schedules: seq<SchedulePeriod>, invoices: seq<InvoiceInput>, config: ReconciliationConfig)
    ensures Abs(RowFor(key, schedules, invoices, config).varianceAmount -
                (Sum(Values(Group(invoices, InvoiceKey, key), TotalOf)) -
                 Sum(Values(Group(schedules, ScheduleKey, key), AmountOf)))) <= 0.005
  {
    hide Group, Sum, StatusOf, ParsePeriodKey, VariancePct;
    var s, i := Group(schedules, ScheduleKey, key), Group(invoices, InvoiceKey, key);
    assert Amounts(s) == Values(s, AmountOf);
    assert Invoiced(i) == Values(i, TotalOf);
  }

  lemma VarianceWithin(
    rows: seq<Row>, schedules: seq<SchedulePeriod>, invoices: seq<InvoiceInput>, config: ReconciliationConfig)
    requires AreRows(rows, AllPeriods(schedules, invoices), schedules, invoices, config)
    ensures Abs(Sum(Values(rows, VarianceIn)) -
                (Sum(Values(invoices, TotalOf)) - Sum(Values(schedules, AmountOf)))) <= 0.005 * |rows| as real
  {
    var keys := AllPeriods(schedules, invoices);
    hide AllPeriods, RowFor, ScheduleKey, InvoiceKey, Sum, Group, Abs;
    var ofSchedules, ofInvoices :=
      GroupTotals(keys, schedules, ScheduleKey, AmountOf), GroupTotals(keys, invoices, InvoiceKey, TotalOf);
    var differences := seq(|keys|, j requires 0 <= j < |keys| => ofInvoices[j] - ofSchedules[j]);
    GroupTotalsAddUp(schedules, invoices);
    SumPointwise(ofSchedules, differences, ofInvoices);
    forall j | 0 <= j < |rows| ensures Abs(Values(rows, VarianceIn)[j] - differences[j]) <= 0.005 {
      RowVariance(keys[j], schedules, invoices, config);
    }
    SumsWithin(Values(rows, VarianceIn), differences);
  }

  lemma RowsRounding(
    rows: seq<Row>, keys: seq<string>, schedules: seq<SchedulePeriod>, invoices: seq<InvoiceInput>,
    config: ReconciliationConfig)
    requires AreRows(rows, keys, schedules, invoices, config)
    ensures |rows| == |keys|
    ensures forall j :: 0 <= j < |rows| ==>
      Abs(Values(rows, ScheduledIn)[j] - GroupTotals(keys, schedules, ScheduleKey, AmountOf)[j]) <= 0.005
    ensures forall j :: 0 <= j < |rows| ==>
      Abs(Values(rows, InvoicedIn)[j] - GroupTotals(keys, invoices, InvoiceKey, TotalOf)[j]) <= 0.005
  {
    hide RowFor, Sum, Group, Abs;
    forall j | 0 <= j < |rows|
      ensures Abs(Values(rows, ScheduledIn)[j] - GroupTotals(keys, schedules, ScheduleKey, AmountOf)[j]) <= 0.005
      ensures Abs(Values(rows, InvoicedIn)[j] - GroupTotals(keys, invoices, InvoiceKey, TotalOf)[j]) <= 0.005
    {
      RowRounding(keys[j], schedules, invoices, config);
    }
  }

  /** The five counts of the summary add up to the number of rows. */
  lemma {:induction false} SummaryAddsUp(rows: seq<Row>)
    ensures var s := SummaryOf(rows);
      s.matched + s.timingVariance + s.amountVariance + s.missingInvoice + s.unmatched == |rows|
  {
    if rows != [] {
      SummaryAddsUp(rows[..|rows| - 1]);
    }
  }

  /** Rows come in order of their start, and there is one for each period of either side. */
  lemma RowsInOrder(
    rows: seq<Row>, schedules: seq<SchedulePeriod>, invoices: seq<InvoiceInput>, config: ReconciliationConfig)
    requires AreRows(rows, AllPeriods(schedules, invoices), schedules, invoices, config)
    ensures var sorted := Sorting.StableSort(rows, StartTime);
      && Sorting.Sorted(sorted, StartTime)
      && (forall i, j :: 0 <= i < j < |sorted| && sorted[i].periodStart.Some? && sorted[j].periodStart.Some? ==>
            sorted[i].periodStart.value <= sorted[j].periodStart.value)
      && multiset(sorted) == multiset(rows)
      && |sorted| == |AllPeriods(schedules, invoices)|
  {
    Sorting.SortSorts(rows, StartTime);
    Sorting.SortContents(rows, StartTime);
    var sorted := Sorting.StableSort(rows, StartTime);
    forall i, j | 0 <= i < j < |sorted| && sorted[i].periodStart.Some? && sorted[j].periodStart.Some?
      ensures sorted[i].periodStart.value <= sorted[j].periodStart.value
    {
      assert StartTime(sorted[i]) <= StartTime(sorted[j]);
    }
  }

  /** The dates of a row are those of its schedules and invoices exactly from year 100 on. */
  lemma RowDates(
    s: SchedulePeriod, schedules: seq<SchedulePeriod>, invoices: seq<InvoiceInput>, config: ReconciliationConfig)
    ensures var row := RowFor(ScheduleKey(s), schedules, invoices, config);
      row.periodStart == Some(s.periodStart) && row.periodEnd == Some(s.periodEnd) <==>
      YearOf(s.periodStart) >= 100 && YearOf(s.periodEnd) >= 100
  {
    PeriodKeyRoundTrip(s.periodStart, s.periodEnd);
    hide ParsePeriodKey, GetPeriodKey, StatusOf, YearOf, Group;
  }

  // ---------- What a status means ----------

  ghost predicate Scheduled(key: string, schedules: seq<SchedulePeriod>) {
    exists s :: s in schedules && ScheduleKey(s) == key
  }

  ghost predicate InvoicedFor(key: string, invoices: seq<InvoiceInput>) {
    exists i :: i in invoices && InvoiceKey(i) == key
  }

  lemma GroupMembers<T(!new)>(items: seq<T>, keyOf: T -> string, key: string)
    ensures forall x :: x in Group(items, keyOf, key) <==> x in items && keyOf(x) == key
    ensures Group(items, keyOf, key) == [] <==> forall x :: x in items ==> keyOf(x) != key
  {
    var g := Group(items, keyOf, key);
    FilterMembers(HasKey(keyOf, key), items);
    hide Filter;
    forall x ensures x in g <==> x in items && keyOf(x) == key {
      assert HasKey(keyOf, key)(x) <==> keyOf(x) == key;
    }
    if g != [] {
      assert g[0] in g;
    }
  }

  lemma SidesPresent(key: string, schedules: seq<SchedulePeriod>, invoices: seq<InvoiceInput>)
    ensures Scheduled(key, schedules) <==> Group(schedules, ScheduleKey, key) != []
    ensures InvoicedFor(key, invoices) <==> Group(invoices, InvoiceKey, key) != []
    ensures key in AllPeriods(schedules, invoices) ==> Scheduled(key, schedules) || InvoicedFor(key, invoices)
  {
    hide GetPeriodKey, Group;
    GroupMembers(schedules, ScheduleKey, key);
    GroupMembers(invoices, InvoiceKey, key);
    var a, b := KeysOf(schedules, ScheduleKey), KeysOf(invoices, InvoiceKey);
    DistinctMembers(a);
    DistinctMembers(b);
    DistinctMembers(Distinct(a) + Distinct(b));
    hide Distinct;
    if key in a {
      var j :| 0 <= j < |a| && a[j] == key;
      assert schedules[j] in schedules;
    }
    if key in b {
      var j :| 0 <= j < |b| && b[j] == key;
      assert invoices[j] in invoices;
    }
  }

  /** A schedule and an invoice of one row have the very same period. */
  lemma RowIsOnePeriod(s: SchedulePeriod, i: InvoiceInput)
    requires ScheduleKey(s) == InvoiceKey(i)
    ensures i.periodStart.GetOr(i.invoiceDate) == s.periodStart && i.periodEnd.GetOr(i.invoiceDate) == s.periodEnd
  {
    PeriodKeyInjective(s.periodStart, s.periodEnd,
                       i.periodStart.GetOr(i.invoiceDate), i.periodEnd.GetOr(i.invoiceDate));
  }

  /** Within a threshold; the percentage counts as 0 when nothing is scheduled. */
  predicate WithinTolerance(scheduled: real, invoiced: real, config: ReconciliationConfig) {
    var variance := Round2(invoiced - scheduled);
    || Abs(variance) <= config.amountVarianceThreshold
    || (if scheduled == 0.0 then 0.0 else Abs(Round4(variance / scheduled * 100.0))) <=
         100.0 * config.amountVariancePctThreshold
  }

  /** Within a tenth of the scheduled amount, or any amount at all when that is zero or negative. */
  predicate PassesForSimilar(scheduled: real, invoiced: real) {
    scheduled <= 0.0 || Abs(scheduled - invoiced) < scheduled / 10.0
  }

  lemma TimingTest(s: SchedulePeriod, i: InvoiceInput, config: ReconciliationConfig)
    ensures LooksLikeTiming(s, i, config) <==>
            OffByDays(s, i, config) && PassesForSimilar(s.scheduledAmount, i.total)
  {
    hide OffByDays;
    QuotientBelowTenth(Abs(s.scheduledAmount - i.total), s.scheduledAmount);
  }

  lemma QuotientBelowTenth(difference: real, scheduled: real)
    requires difference >= 0.0
    ensures (if scheduled != 0.0 then difference / scheduled else 0.0) < 0.1 <==>
            scheduled <= 0.0 || difference < scheduled / 10.0
  {
    if scheduled != 0.0 {
      var quotient := difference / scheduled;
      assert quotient * scheduled == difference;
      TimesPositive(quotient, scheduled);
      TimesPositive(quotient - 0.1, scheduled);
      assert (quotient - 0.1) * scheduled == difference - scheduled / 10.0;
    }
  }

  lemma TimesPositive(a: real, b: real)
    ensures b > 0.0 ==> (a < 0.0 <==> a * b < 0.0)
    ensures b < 0.0 ==> (a > 0.0 <==> a * b < 0.0)
  {
  }

  /** Amounts that differ by less than a tenth of the scheduled one. */
  predicate SimilarAmounts(scheduled: real, invoiced: real) {
    Abs(scheduled - invoiced) < Abs(scheduled) / 10.0
  }

  /**
   * The timing test promises similar amounts with different dates. It keeps that for every invoice
   * if and only if the scheduled amount is positive, or no difference in days is tolerated at all.
   */
  lemma TimingMeansSimilarIff(s: SchedulePeriod, config: ReconciliationConfig)
    ensures (forall i :: LooksLikeTiming(s, i, config) ==> SimilarAmounts(s.scheduledAmount, i.total)) <==>
            s.scheduledAmount > 0.0 || config.timingVarianceDays <= 0
  {
    hide LooksLikeTiming;
    forall i ensures LooksLikeTiming(s, i, config) <==>
                     OffByDays(s, i, config) && PassesForSimilar(s.scheduledAmount, i.total)
    {
      TimingTest(s, i, config);
    }
    if s.scheduledAmount <= 0.0 && config.timingVarianceDays > 0 {
      var i := InvoiceInput("", s.periodEnd - 1, s.scheduledAmount - Abs(s.scheduledAmount) - 1.0, None, None);
      assert OffByDays(s, i, config) && !SimilarAmounts(s.scheduledAmount, i.total);
    }
  }

  /**
   * An invoice of the row that has a period of its own, ending with the schedule, but is dated up
   * to `timingVarianceDays` days off, for an amount that passes for similar.
   */
  ghost predicate InvoicedOffDate(
    key: string, schedules: seq<SchedulePeriod>, invoices: seq<InvoiceInput>, config: ReconciliationConfig)
  {
    exists s, i :: s in schedules && i in invoices && ScheduleKey(s) == InvoiceKey(i) == key &&
                   i.periodEnd == Some(s.periodEnd) && OffByDays(s, i, config) &&
                   PassesForSimilar(s.scheduledAmount, i.total)
  }

  lemma TimingNeedsPeriod(key: string, schedules: seq<SchedulePeriod>, invoices: seq<InvoiceInput>,
                          config: ReconciliationConfig)
    ensures TimingMismatch(Group(schedules, ScheduleKey, key), Group(invoices, InvoiceKey, key), config) <==>
            InvoicedOffDate(key, schedules, invoices, config)
  {
    var gs, gi := Group(schedules, ScheduleKey, key), Group(invoices, InvoiceKey, key);
    GroupMembers(schedules, ScheduleKey, key);
    GroupMembers(invoices, InvoiceKey, key);
    hide Group, GetPeriodKey, LooksLikeTiming, PassesForSimilar;
    if TimingMismatch(gs, gi, config) {
      var a, b :| 0 <= a < |gs| && 0 <= b < |gi| && LooksLikeTiming(gs[a], gi[b], config);
      assert gs[a] in gs && gi[b] in gi;
      TimingTest(gs[a], gi[b], config);
      RowIsOnePeriod(gs[a], gi[b]);
    }
    if InvoicedOffDate(key, schedules, invoices, config) {
      var s, i :| s in schedules && i in invoices && ScheduleKey(s) == InvoiceKey(i) == key &&
                  i.periodEnd == Some(s.periodEnd) && OffByDays(s, i, config) &&
                  PassesForSimilar(s.scheduledAmount, i.total);
      TimingTest(s, i, config);
      assert s in gs && i in gi;
      var a :| 0 <= a < |gs| && gs[a] == s;
      var b :| 0 <= b < |gi| && gi[b] == i;
    }
  }

  lemma ThresholdsOfSums(scheduled: real, invoiced: real, config: ReconciliationConfig)
    ensures var variance := Round2(invoiced - scheduled);
      WithinThresholds(variance, VariancePct(variance, scheduled), config) <==>
      WithinTolerance(scheduled, invoiced, config)
  {
    hide Round2, Round4;
  }

  /**
   * The status of every row, from the schedules and invoices of its period: one of the two sides
   * missing, never both; otherwise matched exactly within tolerance, and beyond it a matter of
   * timing only if an invoice for the very same period is dated off its end.
   */
  lemma StatusMeaning(
    key: string, schedules: seq<SchedulePeriod>, invoices: seq<InvoiceInput>, config: ReconciliationConfig)
    requires key in AllPeriods(schedules, invoices)
    ensures var status := RowFor(key, schedules, invoices, config).status;
      var within := WithinTolerance(Sum(Values(Group(schedules, ScheduleKey, key), AmountOf)),
                                    Sum(Values(Group(invoices, InvoiceKey, key), TotalOf)), config);
      var twoSided := Scheduled(key, schedules) && InvoicedFor(key, invoices);
      && (status == Unmatched <==> !Scheduled(key, schedules))
      && (status == MissingInvoice <==> !InvoicedFor(key, invoices))
      && (status == Matched <==> twoSided && within)
      && (status == TimingVariance <==> twoSided && !within && InvoicedOffDate(key, schedules, invoices, config))
      && (status == AmountVariance <==> twoSided && !within && !InvoicedOffDate(key, schedules, invoices, config))
  {
    hide AllPeriods, Group, Sum, Round2, ParsePeriodKey, TimingMismatch, InvoicedOffDate, WithinThresholds,
      WithinTolerance, VariancePct, Scheduled, InvoicedFor;
    var s, i := Group(schedules, ScheduleKey, key), Group(invoices, InvoiceKey, key);
    assert Amounts(s) == Values(s, AmountOf) && Invoiced(i) == Values(i, TotalOf);
    SidesPresent(key, schedules, invoices);
    TimingNeedsPeriod(key, schedules, invoices, config);
    ThresholdsOfSums(Sum(Amounts(s)), Sum(Invoiced(i)), config);
  }

  /** With the default thresholds a period in which nothing is scheduled matches an invoice of any amount. */
  lemma ZeroMatchesAnything(s: SchedulePeriod, i: InvoiceInput)
    requires s.scheduledAmount == 0.0 && ScheduleKey(s) == InvoiceKey(i)
    ensures RowFor(ScheduleKey(s), [s], [i], DEFAULT_RECONCILIATION_CONFIG).status == Matched
  {
    hide GetPeriodKey, ParsePeriodKey, Round2, Round4, TimingMismatch;
    var key := ScheduleKey(s);
    OneInGroup(s, ScheduleKey);
    OneInGroup(i, InvoiceKey);
    SumPush([], s.scheduledAmount);
    assert Amounts([s]) == [] + [s.scheduledAmount];
  }

  /**
   * A scheduled amount of minus one cent and an invoice of 1000 for the same period, dated up to
   * thirty days off its end, count as a matter of timing.
   */
  lemma AnythingIsTimingExample(s: SchedulePeriod, i: InvoiceInput)
    requires s.scheduledAmount == -0.01 && i.total == 1000.0
    requires i.periodStart == Some(s.periodStart) && i.periodEnd == Some(s.periodEnd)
    requires OffByDays(s, i, DEFAULT_RECONCILIATION_CONFIG)
    ensures RowFor(ScheduleKey(s), [s], [i], DEFAULT_RECONCILIATION_CONFIG).status == TimingVariance
  {
    hide GetPeriodKey, ParsePeriodKey, Round2, Round4, Sum, Group, AllPeriods, OffByDays;
    var key := ScheduleKey(s);
    OneInGroup(s, ScheduleKey);
    OneInGroup(i, InvoiceKey);
    OneValue(s, AmountOf);
    OneValue(i, TotalOf);
    FarOff();
    assert s in [s] && i in [i];
    OneKey(s, i);
    StatusMeaning(key, [s], [i], DEFAULT_RECONCILIATION_CONFIG);
  }

  lemma OneKey(s: SchedulePeriod, i: InvoiceInput)
    requires ScheduleKey(s) == InvoiceKey(i)
    ensures ScheduleKey(s) in AllPeriods([s], [i])
  {
    hide ScheduleKey, InvoiceKey, AllPeriods;
    PeriodsCover([s], [i]);
    assert s in [s];
  }

  lemma OneValue<T(!new)>(x: T, value: T -> real)
    ensures Sum(Values([x], value)) == value(x)
  {
    SumPush([], value(x));
    assert Values([x], value) == [] + [value(x)];
  }

  lemma FarOff()
    ensures !WithinTolerance(-0.01, 1000.0, DEFAULT_RECONCILIATION_CONFIG)
  {
    WholeNumberOfCents(1000.01, 100001);
    RoundShift(0.0, 1000.01);
  }

  lemma OneInGroup<T(!new)>(x: T, keyOf: T -> string)
    ensures Group([x], keyOf, keyOf(x)) == [x]
  {
    assert HasKey(keyOf, keyOf(x))(x);
    FilterAll(HasKey(keyOf, keyOf(x)), [x]);
  }

  // ---------- The summary, the percentages and the default thresholds ----------

  /** The positions of the rows with a status. */
  function WithStatus(rows: seq<Row>, status: ReconciliationStatus): set<nat> {
    set i: nat | i < |rows| && rows[i].status == status
  }

  lemma {:induction false} CountIsSize(rows: seq<Row>, status: ReconciliationStatus)
    ensures CountStatus(rows, status) == |WithStatus(rows, status)|
  {
    if rows != [] {
      var k := |rows| - 1;
      CountIsSize(rows[..k], status);
      var before := WithStatus(rows[..k], status);
      assert WithStatus(rows, status) == before + if rows[k].status == status then {k} else {};
    }
  }

  /** Each count of the summary is the number of rows with its status. */
  lemma SummaryCounts(rows: seq<Row>)
    ensures var s := SummaryOf(rows);
      && s.matched == |WithStatus(rows, Matched)|
      && s.timingVariance == |WithStatus(rows, TimingVariance)|
      && s.amountVariance == |WithStatus(rows, AmountVariance)|
      && s.missingInvoice == |WithStatus(rows, MissingInvoice)|
      && s.unmatched == |WithStatus(rows, Unmatched)|
  {
    CountIsSize(rows, Matched);
    CountIsSize(rows, TimingVariance);
    CountIsSize(rows, AmountVariance);
    CountIsSize(rows, MissingInvoice);
    CountIsSize(rows, Unmatched);
  }

  /** A row has a percentage exactly when something is scheduled: a hundred variances over that, to four decimals. */
  lemma RowPercentage(
    key: string, schedules: seq<SchedulePeriod>, invoices: seq<InvoiceInput>, config: ReconciliationConfig)
    ensures var row := RowFor(key, schedules, invoices, config);
      var scheduled := Sum(Values(Group(schedules, ScheduleKey, key), AmountOf));
      && (row.variancePct.None? <==> scheduled == 0.0)
      && (scheduled != 0.0 ==> Abs(row.variancePct.value - row.varianceAmount * 100.0 / scheduled) <= 0.00005)
  {
    hide Group, Sum, Round2, Round4, StatusOf, ParsePeriodKey;
    var s := Group(schedules, ScheduleKey, key);
    assert Amounts(s) == Values(s, AmountOf);
    PercentOf(RowFor(key, schedules, invoices, config).varianceAmount, Sum(Amounts(s)));
  }

  lemma PercentOf(variance: real, scheduled: real)
    ensures var pct := VariancePct(variance, scheduled);
      && (pct.None? <==> scheduled == 0.0)
      && (scheduled != 0.0 ==> Abs(pct.value - variance * 100.0 / scheduled) <= 0.00005)
  {
    if scheduled != 0.0 {
      assert variance / scheduled * 100.0 == variance * 100.0 / scheduled;
    }
    hide Round4;
  }

  /** By default a hundred units or one percent are tolerated, and thirty days. */
  lemma DefaultThresholds(s: SchedulePeriod, i: InvoiceInput, scheduled: real, invoiced: real)
    ensures var variance := Round2(invoiced - scheduled);
      WithinTolerance(scheduled, invoiced, DEFAULT_RECONCILIATION_CONFIG) <==>
        || -100.0 <= variance <= 100.0
        || scheduled == 0.0
        || -1.0 <= Round4(variance / scheduled * 100.0) <= 1.0
    ensures OffByDays(s, i, DEFAULT_RECONCILIATION_CONFIG) <==>
            i.invoiceDate != s.periodEnd && s.periodEnd - 30 <= i.invoiceDate <= s.periodEnd + 30
  {
    hide Round2, Round4;
  }
}
