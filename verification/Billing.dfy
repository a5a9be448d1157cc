/**
 * Generated schedules reconciled with invoices that bill them period by period
 * (packages/revrec/src/schedules.ts, reconciliation.ts).
 */
module Billing {
  import opened Wrappers
  import opened Sequences
  import opened Money
  import opened Calendar
  import opened RevRecTypes
  import opened PeriodKey
  import opened Schedules
  import opened Reconciliation
  import Sorting

  /** One invoice for each period, for its dates and its amount. */
  ghost predicate Bills(invoices: seq<InvoiceInput>, periods: seq<SchedulePeriod>) {
    && |invoices| == |periods|
    && forall i :: 0 <= i < |periods| ==>
         && invoices[i].periodStart == Some(periods[i].periodStart)
         && invoices[i].periodEnd == Some(periods[i].periodEnd)
         && invoices[i].total == periods[i].scheduledAmount
  }

  lemma SameKeys(invoices: seq<InvoiceInput>, periods: seq<SchedulePeriod>)
    requires Bills(invoices, periods)
    ensures KeysOf(invoices, InvoiceKey) == KeysOf(periods, ScheduleKey)
  {
    hide GetPeriodKey;
  }

  /** The invoices of a period come to what its schedules come to. */
  lemma {:induction false} SameGroups(invoices: seq<InvoiceInput>, periods: seq<SchedulePeriod>, key: string)
    requires Bills(invoices, periods)
    ensures Values(Group(invoices, InvoiceKey, key), TotalOf) == Values(Group(periods, ScheduleKey, key), AmountOf)
  {
    hide GetPeriodKey;
    if periods != [] {
      var k := |periods| - 1;
      SameGroups(invoices[..k], periods[..k], key);
      assert InvoiceKey(invoices[k]) == ScheduleKey(periods[k]);
      GroupStep(periods, k, ScheduleKey, key);
      GroupStep(invoices, k, InvoiceKey, key);
      assert periods[..k + 1] == periods && invoices[..k + 1] == invoices;
      var s, i := Group(periods[..k], ScheduleKey, key), Group(invoices[..k], InvoiceKey, key);
      assert Values(s + [periods[k]], AmountOf) == Values(s, AmountOf) + [periods[k].scheduledAmount];
      assert Values(i + [invoices[k]], TotalOf) == Values(i, TotalOf) + [invoices[k].total];
    }
  }

  lemma {:induction false} DistinctTwice(keys: seq<string>, more: seq<string>)
    requires NoDuplicates(keys) && forall k :: k in more ==> k in keys
    ensures Distinct(keys + more) == keys
  {
    if more == [] {
      assert keys + more == keys;
      DistinctIdentity(keys);
    } else {
      var n := |more| - 1;
      assert (keys + more)[..|keys + more| - 1] == keys + more[..n];
      assert more[n] in more;
      DistinctTwice(keys, more[..n]);
    }
  }

  lemma PeriodsOfBoth(invoices: seq<InvoiceInput>, periods: seq<SchedulePeriod>)
    requires Bills(invoices, periods)
    ensures AllPeriods(periods, invoices) == Distinct(KeysOf(periods, ScheduleKey))
  {
    SameKeys(invoices, periods);
    var keys := KeysOf(periods, ScheduleKey);
    DistinctMembers(keys);
    DistinctTwice(Distinct(keys), Distinct(keys));
  }

  lemma ZeroVariance(amount: real, config: ReconciliationConfig)
    ensures Round2(amount - amount) == 0.0
    ensures WithinTolerance(amount, amount, config) <==>
            config.amountVarianceThreshold >= 0.0 || config.amountVariancePctThreshold >= 0.0
  {
    assert Round2(0.0) == 0.0 && Round4(0.0) == 0.0;
    assert amount != 0.0 ==> 0.0 / amount * 100.0 == 0.0;
    hide Round2, Round4;
  }

  lemma BothSides(key: string, invoices: seq<InvoiceInput>, periods: seq<SchedulePeriod>)
    requires Bills(invoices, periods) && key in AllPeriods(periods, invoices)
    ensures Scheduled(key, periods) && InvoicedFor(key, invoices)
  {
    SidesPresent(key, periods, invoices);
    SameGroups(invoices, periods, key);
    hide Group, AllPeriods, Scheduled, InvoicedFor;
    var s, i := Group(periods, ScheduleKey, key), Group(invoices, InvoiceKey, key);
    assert |s| == |Values(s, AmountOf)| && |i| == |Values(i, TotalOf)|;
  }

  /** Every row of a schedule that is billed as it stands has no variance, and is matched under any thresholds. */
  lemma BilledRowMatches(
    key: string, periods: seq<SchedulePeriod>, invoices: seq<InvoiceInput>, config: ReconciliationConfig)
    requires Bills(invoices, periods) && key in AllPeriods(periods, invoices)
    ensures var row := RowFor(key, periods, invoices, config);
      && row.varianceAmount == 0.0 && row.scheduledAmount == row.invoicedAmount
      && (row.status == Matched <==>
            config.amountVarianceThreshold >= 0.0 || config.amountVariancePctThreshold >= 0.0)
  {
    hide AllPeriods, Group, Sum, Round2, ParsePeriodKey, StatusOf, WithinTolerance, Bills, Scheduled, InvoicedFor;
    var s, i := Group(periods, ScheduleKey, key), Group(invoices, InvoiceKey, key);
    SameGroups(invoices, periods, key);
    BothSides(key, invoices, periods);
    assert Amounts(s) == Values(s, AmountOf) && Invoiced(i) == Values(i, TotalOf);
    ZeroVariance(Sum(Amounts(s)), config);
    StatusMeaning(key, periods, invoices, config);
  }

  lemma {:induction false} AllMatched(rows: seq<Row>)
    requires forall j :: 0 <= j < |rows| ==> rows[j].status == Matched
    ensures SummaryOf(rows) == Summary(|rows|, 0, 0, 0, 0)
  {
    if rows != [] {
      AllMatched(rows[..|rows| - 1]);
    }
  }

  /** The periods of a generated schedule have keys of their own. */
  lemma KeysApart(periods: seq<SchedulePeriod>, start: Day, end: Day, total: real, g: Granularity)
    requires start < end && IsStraightLine(periods, start, end, total, g)
    ensures NoDuplicates(KeysOf(periods, ScheduleKey))
  {
    hide GetPeriodKey, Chained, LastTakesRemainder, DailyRate;
    forall i, j | 0 <= i < j < |periods| ensures ScheduleKey(periods[i]) != ScheduleKey(periods[j]) {
      ChainAscends(periods, start, end, g, i, j);
      ChainEnds(periods, start, end, g, i);
      if ScheduleKey(periods[i]) == ScheduleKey(periods[j]) {
        PeriodKeyInjective(periods[i].periodStart, periods[i].periodEnd, periods[j].periodStart, periods[j].periodEnd);
      }
    }
  }

  /**
   * A straight-line schedule billed period by period reconciles to one matched row per period and
   * nothing else, whenever a threshold is not negative.
   */
  lemma BilledScheduleReconciles(
    periods: seq<SchedulePeriod>, start: Day, end: Day, total: real, g: Granularity,
    invoices: seq<InvoiceInput>, rows: seq<Row>, config: ReconciliationConfig)
    requires start < end && IsStraightLine(periods, start, end, total, g) && Bills(invoices, periods)
    requires AreRows(rows, AllPeriods(periods, invoices), periods, invoices, config)
    requires config.amountVarianceThreshold >= 0.0 || config.amountVariancePctThreshold >= 0.0
    ensures SummaryOf(Sorting.StableSort(rows, StartTime)) == Summary(|periods|, 0, 0, 0, 0)
  {
    KeysApart(periods, start, end, total, g);
    PeriodsOfBoth(invoices, periods);
    DistinctIdentity(KeysOf(periods, ScheduleKey));
    hide IsStraightLine, AllPeriods, RowFor, Bills, GetPeriodKey, Sorting.StableSort, SummaryOf;
    forall j | 0 <= j < |rows| ensures rows[j].status == Matched {
      BilledRowMatches(AllPeriods(periods, invoices)[j], periods, invoices, config);
    }
    var sorted := Sorting.StableSort(rows, StartTime);
    Sorting.SortContents(rows, StartTime);
    forall j | 0 <= j < |sorted| ensures sorted[j].status == Matched {
      assert sorted[j] in sorted;
    }
    AllMatched(sorted);
  }
}
