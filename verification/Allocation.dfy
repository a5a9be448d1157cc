/** Splitting the transaction price over performance obligations (packages/revrec/src/allocation.ts). */
module Allocation {
  import opened Wrappers
  import opened Sequences
  import opened Money
  import opened RevRecTypes
  import Sorting

  datatype AllocationBasis =
    | SingleObligation | SspProportional | SspKnown | Residual | ResidualZero
    | TransactionPriceProportional | EqualAllocation

  /** `allocationPct` is None where the source divides by zero and gets NaN or an infinity. */
  datatype AllocationResult = AllocationResult(
    obligationIndex: nat,
    allocationPct: Option<real>,
    allocatedAmount: real,
    allocationBasis: AllocationBasis)

  function AllocatedAmounts(results: seq<AllocationResult>): (amounts: seq<real>)
    ensures |amounts| == |results|
    ensures forall i :: 0 <= i < |results| ==> amounts[i] == results[i].allocatedAmount
  {
    seq(|results|, i requires 0 <= i < |results| => results[i].allocatedAmount)
  }

  /** One result per obligation, in index order. */
  ghost predicate InOrder(results: seq<AllocationResult>, count: nat) {
    |results| == count && forall i :: 0 <= i < count ==> results[i].obligationIndex == i
  }

  // ---------- Proportional shares ----------

  /** Part `weight` of `whole`, as a fraction of `total`. */
  function Share(weight: real, whole: real, total: real): real
    requires whole != 0.0
  {
    weight / whole * total
  }

  function Shares(weights: seq<real>, whole: real, total: real): (shares: seq<real>)
    requires whole != 0.0
    ensures |shares| == |weights|
    ensures forall i :: 0 <= i < |weights| ==> shares[i] == Share(weights[i], whole, total)
  {
    seq(|weights|, i requires 0 <= i < |weights| => Share(weights[i], whole, total))
  }

  function Prices(obligations: seq<IdentifiedObligation>): (prices: seq<real>)
    ensures |prices| == |obligations|
    ensures forall i :: 0 <= i < |obligations| ==> prices[i] == obligations[i].transactionPrice
  {
    seq(|obligations|, i requires 0 <= i < |obligations| => obligations[i].transactionPrice)
  }

  function Ssps(obligations: seq<IdentifiedObligation>): (ssps: seq<real>)
    ensures |ssps| == |obligations|
    ensures forall i :: 0 <= i < |obligations| ==> ssps[i] == obligations[i].standaloneSellingPrice.GetOr(0.0)
  {
    seq(|obligations|, i requires 0 <= i < |obligations| => obligations[i].standaloneSellingPrice.GetOr(0.0))
  }

  function Ones(count: nat): (weights: seq<real>)
    ensures |weights| == count
    ensures forall i :: 0 <= i < count ==> weights[i] == 1.0
  {
    seq(count, i requires 0 <= i < count => 1.0)
  }

  /** Every obligation gets its rounded share by weight, the last one what is left of the total. */
  ghost predicate IsProportional(
    results: seq<AllocationResult>, weights: seq<real>, total: real, basis: AllocationBasis)
  {
    && Sum(weights) != 0.0
    && InOrder(results, |weights|)
    && LastTakesRemainder(AllocatedAmounts(results), Shares(weights, Sum(weights), total), total)
    && forall i :: 0 <= i < |weights| ==>
         && results[i].allocationBasis == basis
         && results[i].allocationPct == Some(Round4(Share(weights[i], Sum(weights), 100.0)))
  }

  lemma {:induction false} SumOnes(count: nat)
    ensures Sum(Ones(count)) == count as real
  {
    if count > 0 {
      SumOnes(count - 1);
      assert Ones(count)[..count - 1] == Ones(count - 1);
    }
  }

  lemma WholeShare(whole: real, total: real)
    requires whole != 0.0
    ensures Share(whole, whole, total) == total
  {
  }

  lemma ShareAdds(a: real, b: real, whole: real, total: real)
    requires whole != 0.0
    ensures Share(a + b, whole, total) == Share(a, whole, total) + Share(b, whole, total)
    ensures Share(0.0, whole, total) == 0.0
  {
  }

  lemma {:induction false} SharesAdd(weights: seq<real>, whole: real, total: real)
    requires whole != 0.0
    ensures Sum(Shares(weights, whole, total)) == Share(Sum(weights), whole, total)
  {
    hide Share;
    ShareAdds(0.0, 0.0, whole, total);
    if weights != [] {
      var k := |weights| - 1;
      SharesAdd(weights[..k], whole, total);
      assert Shares(weights, whole, total)[..k] == Shares(weights[..k], whole, total);
      ShareAdds(Sum(weights[..k]), weights[k], whole, total);
    }
  }

  /**
   * The loop the proportional strategies share. `percents[i]` is the i-th unrounded percentage and
   * `shares[i]` the i-th unrounded amount.
   */
  method SplitByShares(shares: seq<real>, percents: seq<real>, total: real, basis: AllocationBasis)
    returns (results: seq<AllocationResult>)
    requires |shares| == |percents| > 0
    ensures InOrder(results, |shares|)
    ensures LastTakesRemainder(AllocatedAmounts(results), shares, total)
    ensures forall i :: 0 <= i < |shares| ==>
      results[i].allocationBasis == basis && results[i].allocationPct == Some(Round4(percents[i]))
  {
    hide Round2, Round4, Sum;
    results := [];
    var allocatedTotal := 0.0;
    SumEmpty(AllocatedAmounts(results));
    for i := 0 to |shares|
      invariant InOrder(results, i)
      invariant allocatedTotal == Sum(AllocatedAmounts(results))
      invariant forall j :: 0 <= j < i ==>
        results[j].allocationBasis == basis && results[j].allocationPct == Some(Round4(percents[j]))
      invariant forall j :: 0 <= j < i && j < |shares| - 1 ==> results[j].allocatedAmount == Round2(shares[j])
      invariant i == |shares| ==>
        results[i - 1].allocatedAmount == Round2(total - Sum(AllocatedAmounts(results)[..i - 1]))
    {
      var isLast := i == |shares| - 1;
      var allocatedAmount := if isLast then Round2(total - allocatedTotal) else Round2(shares[i]);
      SumPush(AllocatedAmounts(results), allocatedAmount);
      allocatedTotal := allocatedTotal + allocatedAmount;
      ghost var before := AllocatedAmounts(results);
      results := results + [AllocationResult(i, Some(Round4(percents[i])), allocatedAmount, basis)];
      assert AllocatedAmounts(results) == before + [allocatedAmount];
      assert AllocatedAmounts(results)[..i] == before;
    }
  }

  lemma SumEmpty(s: seq<real>)
    requires s == []
    ensures Sum(s) == 0.0
  {
  }

  method AllocateEqually(obligations: seq<IdentifiedObligation>, total: real) returns (results: seq<AllocationResult>)
    requires obligations != []
    ensures IsProportional(results, Ones(|obligations|), total, EqualAllocation)
  {
    var count := |obligations|;
    var equalPct := 100.0 / count as real;
    var perObligation := total / count as real;
    SumOnes(count);
    EqualShare(count, total);
    EqualShare(count, 100.0);
    var shares := seq(count, i => perObligation);
    assert shares == Shares(Ones(count), Sum(Ones(count)), total);
    results := SplitByShares(shares, seq(count, i => equalPct), total, EqualAllocation);
  }

  lemma EqualShare(count: nat, total: real)
    requires count > 0
    ensures Share(1.0, count as real, total) == total / count as real
  {
  }

  method AllocateBySSP(obligations: seq<IdentifiedObligation>, total: real) returns (results: seq<AllocationResult>)
    requires obligations != []
    ensures var ssps := Ssps(obligations);
      if Sum(ssps) == 0.0 then IsProportional(results, Ones(|obligations|), total, EqualAllocation)
      else IsProportional(results, ssps, total, SspProportional)
  {
    var ssps := Ssps(obligations);
    var totalSSP := Sum(ssps);
    if totalSSP == 0.0 {
      results := AllocateEqually(obligations, total);
    } else {
      results := SplitByShares(Shares(ssps, totalSSP, total), Shares(ssps, totalSSP, 100.0), total, SspProportional);
    }
  }

  method AllocateByTransactionPrice(obligations: seq<IdentifiedObligation>, total: real)
    returns (results: seq<AllocationResult>)
    requires obligations != []
    ensures var prices := Prices(obligations);
      if Sum(prices) == 0.0 then IsProportional(results, Ones(|obligations|), total, EqualAllocation)
      else IsProportional(results, prices, total, TransactionPriceProportional)
  {
    var prices := Prices(obligations);
    var totalFromObligations := Sum(prices);
    if totalFromObligations == 0.0 {
      results := AllocateEqually(obligations, total);
    } else {
      results := SplitByShares(Shares(prices, totalFromObligations, total),
                               Shares(prices, totalFromObligations, 100.0), total, TransactionPriceProportional);
    }
  }

  // ---------- Residual allocation ----------

  /** What the known selling prices, taken in order, leave of the total. */
  function Remaining(obligations: seq<IdentifiedObligation>, total: real): real {
    if obligations == [] then total
    else
      var left := Remaining(obligations[..|obligations| - 1], total);
      match obligations[|obligations| - 1].standaloneSellingPrice
      case Some(ssp) => left - Min(ssp, left)
      case None => left
  }

  function UnknownCount(obligations: seq<IdentifiedObligation>): (n: nat)
    ensures n <= |obligations|
  {
    if obligations == [] then 0
    else UnknownCount(obligations[..|obligations| - 1]) +
         if obligations[|obligations| - 1].standaloneSellingPrice.None? then 1 else 0
  }

  predicate HasAllSSP(obligations: seq<IdentifiedObligation>) {
    forall i :: 0 <= i < |obligations| ==> obligations[i].standaloneSellingPrice.Some?
  }

  predicate HasSomeSSP(obligations: seq<IdentifiedObligation>) {
    exists i :: 0 <= i < |obligations| && obligations[i].standaloneSellingPrice.Some?
  }

  function PctOf(amount: real, total: real): Option<real> {
    if total == 0.0 then None else Some(Round4(amount / total * 100.0))
  }

  /**
   * The entry of obligation i: a known price as far as the money reaches, or an equal part of
   * what all the known prices leave.
   */
  ghost function ResidualEntry(obligations: seq<IdentifiedObligation>, total: real, i: nat): AllocationResult
    requires i < |obligations|
  {
    match obligations[i].standaloneSellingPrice
    case Some(ssp) =>
      var amount := Min(ssp, Remaining(obligations[..i], total));
      AllocationResult(i, PctOf(amount, total), Round2(amount), SspKnown)
    case None =>
      var left := Remaining(obligations, total);
      if left > 0.0 && UnknownCount(obligations) > 0 then
        var amount := Round2(Part(left, UnknownCount(obligations)));
        AllocationResult(i, PctOf(amount, total), amount, Residual)
      else AllocationResult(i, Some(0.0), 0.0, ResidualZero)
  }

  ghost predicate IsResidual(results: seq<AllocationResult>, obligations: seq<IdentifiedObligation>, total: real) {
    |results| == |obligations| && forall i :: 0 <= i < |results| ==> results[i] == ResidualEntry(obligations, total, i)
  }

  function ObligationIndex(r: AllocationResult): int {
    r.obligationIndex
  }

  /** Correct entries for obligations that are all different. */
  ghost predicate DistinctEntries(results: seq<AllocationResult>, obligations: seq<IdentifiedObligation>, total: real) {
    && (forall j :: 0 <= j < |results| ==>
          var i := results[j].obligationIndex; i < |obligations| && results[j] == ResidualEntry(obligations, total, i))
    && forall j, k :: 0 <= j < k < |results| ==> results[j].obligationIndex != results[k].obligationIndex
  }

  lemma SortedEntries(results: seq<AllocationResult>, obligations: seq<IdentifiedObligation>, total: real)
    requires DistinctEntries(results, obligations, total) && |results| == |obligations|
    ensures IsResidual(Sorting.StableSort(results, ObligationIndex), obligations, total)
  {
    var sorted := Sorting.StableSort(results, ObligationIndex);
    Sorting.SortStrict(results, ObligationIndex);
    Sorting.SortContents(results, ObligationIndex);
    forall k | 0 <= k < |sorted|
      ensures var i := sorted[k].obligationIndex; i < |obligations| && sorted[k] == ResidualEntry(obligations, total, i)
    {
      assert sorted[k] in sorted;
      var j :| 0 <= j < |results| && results[j] == sorted[k];
    }
    Sorting.StrictIsIdentity(sorted, ObligationIndex, |obligations|);
    assert forall k :: 0 <= k < |sorted| ==> ObligationIndex(sorted[k]) == k;
  }

  /** An equal part of an amount. */
  function Part(amount: real, parts: nat): real
    requires parts > 0
  {
    amount / parts as real
  }

  function Times(count: nat, part: real): real {
    count as real * part
  }

  lemma PartTimes(amount: real, parts: nat)
    requires parts > 0
    ensures Times(parts, Part(amount, parts)) == amount
    ensures Times(parts - 1, Part(amount, parts)) == amount - Part(amount, parts)
  {
  }

  lemma TimesNext(count: nat, part: real)
    ensures Times(count + 1, part) == Times(count, part) + part
    ensures Times(0, part) == 0.0
  {
  }

  /**
   * The amount of the i-th residual item. The last one is no remainder: it subtracts unrounded
   * parts, so in exact arithmetic it is one more equal part.
   */
  function ResidualAmount(remainingPrice: real, parts: nat, i: nat): (amount: real)
    requires i < parts
    ensures amount == Round2(Part(remainingPrice, parts))
  {
    var perResidual := Part(remainingPrice, parts);
    PartTimes(remainingPrice, parts);
    if i == parts - 1 then Round2(remainingPrice - Times(i, perResidual)) else Round2(perResidual)
  }

  ghost predicate IsKnown(obligations: seq<IdentifiedObligation>, i: nat) {
    i < |obligations| && obligations[i].standaloneSellingPrice.Some?
  }

  ghost predicate IsUnknown(obligations: seq<IdentifiedObligation>, i: nat) {
    i < |obligations| && obligations[i].standaloneSellingPrice.None?
  }

  /** Entries, in index order, of obligations with a known selling price. */
  ghost predicate KnownEntries(results: seq<AllocationResult>, obligations: seq<IdentifiedObligation>, total: real) {
    && Sorting.StrictlySorted(results, ObligationIndex)
    && forall j :: 0 <= j < |results| ==>
         var i := results[j].obligationIndex;
         IsKnown(obligations, i) && results[j] == ResidualEntry(obligations, total, i)
  }

  ghost predicate UnknownIndices(indices: seq<nat>, obligations: seq<IdentifiedObligation>) {
    && (forall j, k :: 0 <= j < k < |indices| ==> indices[j] < indices[k])
    && forall k :: 0 <= k < |indices| ==> IsUnknown(obligations, indices[k])
  }

  ghost predicate Below(results: seq<AllocationResult>, indices: seq<nat>, n: nat) {
    && (forall j :: 0 <= j < |results| ==> results[j].obligationIndex < n)
    && forall j :: 0 <= j < |indices| ==> indices[j] < n
  }

  lemma NothingAllocated(obligations: seq<IdentifiedObligation>, total: real)
    ensures KnownEntries([], obligations, total) && UnknownIndices([], obligations) && Below([], [], 0)
  {
  }

  lemma KnownPush(results: seq<AllocationResult>, indices: seq<nat>, r: AllocationResult,
                  obligations: seq<IdentifiedObligation>, total: real)
    requires KnownEntries(results, obligations, total) && Below(results, indices, r.obligationIndex)
    requires IsKnown(obligations, r.obligationIndex) && r == ResidualEntry(obligations, total, r.obligationIndex)
    ensures KnownEntries(results + [r], obligations, total) && Below(results + [r], indices, r.obligationIndex + 1)
  {
    hide ResidualEntry;
  }

  lemma UnknownPush(results: seq<AllocationResult>, indices: seq<nat>, i: nat, obligations: seq<IdentifiedObligation>)
    requires UnknownIndices(indices, obligations) && Below(results, indices, i) && IsUnknown(obligations, i)
    ensures UnknownIndices(indices + [i], obligations) && Below(results, indices + [i], i + 1)
  {
  }

  method AllocateKnown(obligations: seq<IdentifiedObligation>, total: real)
    returns (results: seq<AllocationResult>, remainingPrice: real, residualIndices: seq<nat>)
    ensures KnownEntries(results, obligations, total)
    ensures UnknownIndices(residualIndices, obligations)
    ensures |results| + |residualIndices| == |obligations|
    ensures remainingPrice == Remaining(obligations, total)
    ensures |residualIndices| == UnknownCount(obligations)
  {
    hide Round2, ResidualEntry, PctOf, Min, KnownEntries, UnknownIndices, Below;
    NothingAllocated(obligations, total);
    results, remainingPrice, residualIndices := [], total, [];
    assert obligations[..0] == [];
    for i := 0 to |obligations|
      invariant remainingPrice == Remaining(obligations[..i], total)
      invariant |residualIndices| == UnknownCount(obligations[..i])
      invariant |results| + |residualIndices| == i
      invariant KnownEntries(results, obligations, total)
      invariant Below(results, residualIndices, i)
      invariant UnknownIndices(residualIndices, obligations)
    {
      assert obligations[..i + 1][..i] == obligations[..i];
      match obligations[i].standaloneSellingPrice {
        case Some(ssp) =>
          var allocatedAmount := Min(ssp, remainingPrice);
          KnownEntry(obligations, total, i);
          remainingPrice := remainingPrice - allocatedAmount;
          var result := AllocationResult(i, PctOf(allocatedAmount, total), Round2(allocatedAmount), SspKnown);
          KnownPush(results, residualIndices, result, obligations, total);
          results := results + [result];
        case None =>
          UnknownPush(results, residualIndices, i, obligations);
          residualIndices := residualIndices + [i];
      }
    }
    assert obligations[..|obligations|] == obligations;
  }

  method AllocateByResidual(obligations: seq<IdentifiedObligation>, total: real)
    returns (results: seq<AllocationResult>)
    ensures IsResidual(results, obligations, total)
  {
    hide Round2, ResidualEntry, PctOf, Min, ResidualAmount, KnownEntries, DistinctEntries, IsResidual, Remaining;
    var known, remainingPrice, residualIndices := AllocateKnown(obligations, total);
    results := known;
    if |residualIndices| > 0 && remainingPrice > 0.0 {
      for i := 0 to |residualIndices|
        invariant |results| == |known| + i && results[..|known|] == known
        invariant forall k :: 0 <= k < i ==> EntryOf(results[|known| + k], residualIndices[k], obligations, total)
      {
        var allocatedAmount := ResidualAmount(remainingPrice, |residualIndices|, i);
        UnknownEntry(obligations, total, residualIndices[i]);
        results := results +
          [AllocationResult(residualIndices[i], PctOf(allocatedAmount, total), allocatedAmount, Residual)];
      }
    } else if |residualIndices| > 0 {
      for i := 0 to |residualIndices|
        invariant |results| == |known| + i && results[..|known|] == known
        invariant forall k :: 0 <= k < i ==> EntryOf(results[|known| + k], residualIndices[k], obligations, total)
      {
        UnknownEntry(obligations, total, residualIndices[i]);
        results := results + [AllocationResult(residualIndices[i], Some(0.0), 0.0, ResidualZero)];
      }
    }
    TwoPasses(known, residualIndices, results, obligations, total);
    SortedEntries(results, obligations, total);
    results := Sorting.StableSort(results, ObligationIndex);
  }

  ghost predicate EntryOf(r: AllocationResult, i: nat, obligations: seq<IdentifiedObligation>, total: real) {
    i < |obligations| && r.obligationIndex == i && r == ResidualEntry(obligations, total, i)
  }

  lemma TwoPasses(known: seq<AllocationResult>, indices: seq<nat>, results: seq<AllocationResult>,
                  obligations: seq<IdentifiedObligation>, total: real)
    requires KnownEntries(known, obligations, total) && UnknownIndices(indices, obligations)
    requires |results| == |known| + |indices| && results[..|known|] == known
    requires forall k :: 0 <= k < |indices| ==> EntryOf(results[|known| + k], indices[k], obligations, total)
    ensures DistinctEntries(results, obligations, total)
  {
    hide ResidualEntry;
    var m := |known|;
    forall j | 0 <= j < |results|
      ensures var i := results[j].obligationIndex;
        i < |obligations| && results[j] == ResidualEntry(obligations, total, i)
      ensures j < m ==> results[j] == known[j] && IsKnown(obligations, results[j].obligationIndex)
      ensures j >= m ==>
        results[j].obligationIndex == indices[j - m] && IsUnknown(obligations, results[j].obligationIndex)
    {
      if j < m {
        assert results[..m][j] == results[j];
      } else {
        assert EntryOf(results[m + (j - m)], indices[j - m], obligations, total);
      }
    }
    forall j, k | 0 <= j < k < |results| ensures results[j].obligationIndex != results[k].obligationIndex {
      if k < m {
        assert ObligationIndex(known[j]) < ObligationIndex(known[k]);
      }
    }
  }

  lemma KnownEntry(obligations: seq<IdentifiedObligation>, total: real, i: nat)
    requires i < |obligations| && obligations[i].standaloneSellingPrice.Some?
    ensures var amount := Min(obligations[i].standaloneSellingPrice.value, Remaining(obligations[..i], total));
      ResidualEntry(obligations, total, i) == AllocationResult(i, PctOf(amount, total), Round2(amount), SspKnown)
  {
  }

  lemma UnknownEntry(obligations: seq<IdentifiedObligation>, total: real, i: nat)
    requires i < |obligations| && obligations[i].standaloneSellingPrice.None? && UnknownCount(obligations) > 0
    ensures var left := Remaining(obligations, total);
      ResidualEntry(obligations, total, i) ==
        if left > 0.0 then
          var amount := Round2(Part(left, UnknownCount(obligations)));
          AllocationResult(i, PctOf(amount, total), amount, Residual)
        else AllocationResult(i, Some(0.0), 0.0, ResidualZero)
  {
  }

  // ---------- What the strategies guarantee ----------

  /** Proportional and equal allocation hand out the rounded total, to the cent for a whole-cent total. */
  lemma ProportionalConserves(
    results: seq<AllocationResult>, weights: seq<real>, total: real, basis: AllocationBasis)
    requires IsProportional(results, weights, total, basis)
    ensures Sum(AllocatedAmounts(results)) == Round2(total)
    ensures IsCents(total) ==> Sum(AllocatedAmounts(results)) == total
    ensures AllCents(AllocatedAmounts(results))
  {
    SplitConserves(AllocatedAmounts(results), Shares(weights, Sum(weights), total), total);
  }

  /**
   * Each amount but the last is within half a cent of its exact share; the last of n is within
   * n/2 cents, and within (n-1)/2 cents when the total is in whole cents.
   */
  lemma ProportionalBounds(
    results: seq<AllocationResult>, weights: seq<real>, total: real, basis: AllocationBasis)
    requires IsProportional(results, weights, total, basis)
    ensures var (whole, n) := (Sum(weights), |weights|);
      && (forall i :: 0 <= i < n - 1 ==>
            Abs(results[i].allocatedAmount - Share(weights[i], whole, total)) <= 0.005)
      && var drift := Abs(results[n - 1].allocatedAmount - Share(weights[n - 1], whole, total));
         && drift <= 0.005 * n as real
         && (IsCents(total) ==> drift <= 0.005 * (n - 1) as real)
  {
    hide Share, Abs, LastTakesRemainder, Sum, IsCents, IsProportional;
    AmountsSplit(results, weights, total, basis);
    SharesAdd(weights, Sum(weights), total);
    WholeShare(Sum(weights), total);
    BoundsByIndex(results, weights, Sum(weights), total);
  }

  lemma BoundsByIndex(results: seq<AllocationResult>, weights: seq<real>, whole: real, total: real)
    requires whole != 0.0 && Sum(Shares(weights, whole, total)) == total
    requires LastTakesRemainder(AllocatedAmounts(results), Shares(weights, whole, total), total)
    ensures |results| == |weights| > 0
    ensures forall i :: 0 <= i < |weights| - 1 ==>
      Abs(results[i].allocatedAmount - Share(weights[i], whole, total)) <= 0.005
    ensures var n := |weights|;
      var drift := Abs(results[n - 1].allocatedAmount - Share(weights[n - 1], whole, total));
      drift <= 0.005 * n as real && (IsCents(total) ==> drift <= 0.005 * (n - 1) as real)
  {
    SplitBounds(AllocatedAmounts(results), Shares(weights, whole, total), total);
    hide Share, Abs, Sum, IsCents, Round2;
    var amounts, shares := AllocatedAmounts(results), Shares(weights, whole, total);
    forall i | 0 <= i < |weights|
      ensures Abs(amounts[i] - shares[i]) == Abs(results[i].allocatedAmount - Share(weights[i], whole, total))
    {
    }
  }

  lemma AmountsSplit(results: seq<AllocationResult>, weights: seq<real>, total: real, basis: AllocationBasis)
    requires IsProportional(results, weights, total, basis)
    ensures |results| == |weights| > 0 && Sum(weights) != 0.0
    ensures LastTakesRemainder(AllocatedAmounts(results), Shares(weights, Sum(weights), total), total)
  {
  }

  /** The known selling prices of the obligations. */
  function KnownTotal(obligations: seq<IdentifiedObligation>): real {
    Sum(Ssps(obligations))
  }

  ghost predicate NoNegativeSsp(obligations: seq<IdentifiedObligation>) {
    forall i :: 0 <= i < |obligations| ==> obligations[i].standaloneSellingPrice.GetOr(0.0) >= 0.0
  }

  /** The waterfall: what the first obligations leave is the total less their prices, but not below zero. */
  lemma {:induction false} RemainingClosedForm(obligations: seq<IdentifiedObligation>, total: real)
    requires total >= 0.0 && NoNegativeSsp(obligations)
    ensures Remaining(obligations, total) == Max(0.0, total - KnownTotal(obligations))
    ensures KnownTotal(obligations) >= 0.0
  {
    if obligations != [] {
      var k := |obligations| - 1;
      RemainingClosedForm(obligations[..k], total);
      assert Ssps(obligations)[..k] == Ssps(obligations[..k]);
    }
  }

  /** So known obligation i gets its price as far as the total reaches after the earlier ones. */
  lemma ResidualWaterfall(
    results: seq<AllocationResult>, obligations: seq<IdentifiedObligation>, total: real, i: nat)
    requires IsResidual(results, obligations, total)
    requires i < |obligations| && IsKnown(obligations, i)
    requires total >= 0.0 && NoNegativeSsp(obligations[..i])
    ensures results[i].allocatedAmount ==
      Round2(Min(obligations[i].standaloneSellingPrice.value, Max(0.0, total - KnownTotal(obligations[..i]))))
  {
    RemainingClosedForm(obligations[..i], total);
  }

  ghost predicate CentSsps(obligations: seq<IdentifiedObligation>) {
    forall i :: 0 <= i < |obligations| ==> IsCents(obligations[i].standaloneSellingPrice.GetOr(0.0))
  }

  lemma {:induction false} RemainingCents(obligations: seq<IdentifiedObligation>, total: real)
    requires IsCents(total) && CentSsps(obligations)
    ensures IsCents(Remaining(obligations, total))
  {
    if obligations != [] {
      var k := |obligations| - 1;
      RemainingCents(obligations[..k], total);
      var left := Remaining(obligations[..k], total);
      if obligations[k].standaloneSellingPrice.Some? {
        assert IsCents(obligations[k].standaloneSellingPrice.GetOr(0.0));
        CentsClosed(left, left);
        CentsClosed(left, obligations[k].standaloneSellingPrice.value);
      }
    }
  }

  lemma {:induction false} RemainingNonNegative(obligations: seq<IdentifiedObligation>, total: real, i: nat)
    requires i < |obligations| && (total >= 0.0 || IsKnown(obligations, i))
    ensures Remaining(obligations, total) >= 0.0
  {
    var k := |obligations| - 1;
    if i < k {
      RemainingNonNegative(obligations[..k], total, i);
    } else if total >= 0.0 && k > 0 {
      RemainingNonNegative(obligations[..k], total, k - 1);
    }
  }

  /** What one obligation without a selling price gets. */
  function ResidualPart(obligations: seq<IdentifiedObligation>, total: real): real {
    var left, parts := Remaining(obligations, total), UnknownCount(obligations);
    if left > 0.0 && parts > 0 then Round2(Part(left, parts)) else 0.0
  }

  lemma {:induction false} ResidualPrefix(
    results: seq<AllocationResult>, obligations: seq<IdentifiedObligation>, total: real, k: nat)
    requires IsResidual(results, obligations, total) && k <= |obligations|
    requires IsCents(total) && CentSsps(obligations)
    ensures Sum(AllocatedAmounts(results)[..k]) ==
      total - Remaining(obligations[..k], total) +
      Times(UnknownCount(obligations[..k]), ResidualPart(obligations, total))
  {
    hide ResidualEntry, Round2, ResidualPart, Times, Min, IsCents;
    if k == 0 {
      assert obligations[..0] == [];
      TimesNext(0, ResidualPart(obligations, total));
    } else {
      ResidualPrefix(results, obligations, total, k - 1);
      SumTake(AllocatedAmounts(results), k - 1);
      assert obligations[..k][..k - 1] == obligations[..k - 1];
      ResidualAmountOf(results, obligations, total, k - 1);
      TimesNext(UnknownCount(obligations[..k - 1]), ResidualPart(obligations, total));
    }
  }

  lemma ResidualAmountOf(results: seq<AllocationResult>, obligations: seq<IdentifiedObligation>, total: real, i: nat)
    requires IsResidual(results, obligations, total) && i < |obligations|
    requires IsCents(total) && CentSsps(obligations)
    ensures match obligations[i].standaloneSellingPrice
      case Some(ssp) => results[i].allocatedAmount == Min(ssp, Remaining(obligations[..i], total))
      case None => results[i].allocatedAmount == ResidualPart(obligations, total)
  {
    if obligations[i].standaloneSellingPrice.Some? {
      RemainingCents(obligations[..i], total);
      var amount := Min(obligations[i].standaloneSellingPrice.value, Remaining(obligations[..i], total));
      assert IsCents(obligations[i].standaloneSellingPrice.GetOr(0.0));
      RoundShift(0.0, amount);
    }
  }

  lemma {:induction false} TimesError(count: nat, a: real, b: real)
    requires count > 0 && -0.005 <= a - b <= 0.005
    ensures Abs(Times(count, a) - Times(count, b)) <= 0.005 * count as real
    ensures a < b ==> Times(count, a) < Times(count, b)
    ensures b < a ==> Times(count, b) < Times(count, a)
  {
    TimesNext(count - 1, a);
    TimesNext(count - 1, b);
    hide Times;
    if count > 1 {
      TimesError(count - 1, a, b);
    } else {
      TimesNext(0, a);
      TimesNext(0, b);
    }
  }

  lemma PartsDrift(left: real, parts: nat)
    requires parts > 0
    ensures Abs(Times(parts, Round2(Part(left, parts))) - left) <= 0.005 * parts as real
    ensures Times(parts, Round2(Part(left, parts))) == left <==> IsCents(Part(left, parts))
    ensures parts == 1 && IsCents(left) ==> IsCents(Part(left, parts))
  {
    var part := Part(left, parts);
    PartTimes(left, parts);
    TimesError(parts, Round2(part), part);
    if IsCents(part) {
      RoundShift(0.0, part);
    }
  }

  /**
   * With r obligations without a selling price and whole-cent inputs, residual allocation hands
   * out the price up to r/2 cents, and exactly the price if and only if what the known prices
   * leave splits into r parts of whole cents.
   */
  lemma ResidualDrift(results: seq<AllocationResult>, obligations: seq<IdentifiedObligation>, total: real)
    requires IsResidual(results, obligations, total)
    requires IsCents(total) && CentSsps(obligations)
    requires HasSomeSSP(obligations) && UnknownCount(obligations) > 0
    ensures var (sum, r, left) :=
        (Sum(AllocatedAmounts(results)), UnknownCount(obligations), Remaining(obligations, total));
      && Abs(sum - total) <= 0.005 * r as real
      && (sum == total <==> IsCents(Part(left, r)))
      && (r == 1 || left == 0.0 ==> sum == total)
  {
    hide Round2, IsResidual, Abs, IsCents, Times, Part, Remaining;
    var i :| 0 <= i < |obligations| && obligations[i].standaloneSellingPrice.Some?;
    var n, r, left := |obligations|, UnknownCount(obligations), Remaining(obligations, total);
    RemainingNonNegative(obligations, total, i);
    RemainingCents(obligations, total);
    ResidualPrefix(results, obligations, total, n);
    ResidualLength(results, obligations, total);
    assert obligations[..n] == obligations && AllocatedAmounts(results)[..n] == AllocatedAmounts(results);
    if left > 0.0 {
      PartsDrift(left, r);
    } else {
      ZeroParts(r);
    }
  }

  lemma ResidualLength(results: seq<AllocationResult>, obligations: seq<IdentifiedObligation>, total: real)
    requires IsResidual(results, obligations, total)
    ensures |results| == |obligations|
  {
  }

  lemma ZeroParts(r: nat)
    requires r > 0
    ensures IsCents(Part(0.0, r)) && Abs(0.0) == 0.0 && Times(r, 0.0) == 0.0
  {
  }

  // ---------- Choosing a strategy, and checking its result ----------

  ghost predicate IsAllocation(results: seq<AllocationResult>, obligations: seq<IdentifiedObligation>, total: real) {
    var n := |obligations|;
    if n == 0 then results == []
    else if n == 1 then
      var own := obligations[0].transactionPrice;
      results == [AllocationResult(0, Some(100.0), if own != 0.0 then own else total, SingleObligation)]
    else if HasAllSSP(obligations) then
      if Sum(Ssps(obligations)) == 0.0 then IsProportional(results, Ones(n), total, EqualAllocation)
      else IsProportional(results, Ssps(obligations), total, SspProportional)
    else if HasSomeSSP(obligations) then IsResidual(results, obligations, total)
    else if Sum(Prices(obligations)) == 0.0 then IsProportional(results, Ones(n), total, EqualAllocation)
    else IsProportional(results, Prices(obligations), total, TransactionPriceProportional)
  }

  method AllocatePrices(obligations: seq<IdentifiedObligation>, total: real) returns (results: seq<AllocationResult>)
    ensures IsAllocation(results, obligations, total)
  {
    hide Sum, IsProportional, IsResidual, HasAllSSP, HasSomeSSP;
    if |obligations| == 0 {
      return [];
    }
    if |obligations| == 1 {
      var own := obligations[0].transactionPrice;
      return [AllocationResult(0, Some(100.0), if own != 0.0 then own else total, SingleObligation)];
    }
    var hasAllSSP := HasAllSSP(obligations);
    var hasSomeSSP := HasSomeSSP(obligations);
    if hasAllSSP {
      results := AllocateBySSP(obligations, total);
    } else if hasSomeSSP {
      results := AllocateByResidual(obligations, total);
    } else {
      results := AllocateByTransactionPrice(obligations, total);
    }
  }

  predicate ValidateAllocations(allocations: seq<AllocationResult>, total: real, tolerance: real) {
    Abs(Sum(AllocatedAmounts(allocations)) - total) <= tolerance
  }

  /**
   * On whole-cent prices the validator accepts an allocation of two or more obligations with zero
   * tolerance, except a residual one whose left-over does not split into whole cents; and a single
   * obligation exactly when its own price is 0 or the total.
   */
  lemma AllocationValidates(results: seq<AllocationResult>, obligations: seq<IdentifiedObligation>, total: real)
    requires IsAllocation(results, obligations, total) && obligations != []
    requires IsCents(total) && CentSsps(obligations)
    ensures var residual := HasSomeSSP(obligations) && UnknownCount(obligations) > 0;
      ValidateAllocations(results, total, 0.0) <==>
        if |obligations| == 1 then obligations[0].transactionPrice == 0.0 || obligations[0].transactionPrice == total
        else residual ==> IsCents(Part(Remaining(obligations, total), UnknownCount(obligations)))
  {
    hide IsProportional, IsResidual, IsCents, Remaining, HasAllSSP, HasSomeSSP, Sum, Part;
    var n := |obligations|;
    UnknownCountPositive(obligations);
    if n == 1 {
      SumPush([], results[0].allocatedAmount);
      SumEmpty([]);
      assert AllocatedAmounts(results) == [] + [results[0].allocatedAmount];
    } else if HasAllSSP(obligations) {
      if Sum(Ssps(obligations)) == 0.0 {
        ProportionalConserves(results, Ones(n), total, EqualAllocation);
      } else {
        ProportionalConserves(results, Ssps(obligations), total, SspProportional);
      }
    } else if HasSomeSSP(obligations) {
      ResidualDrift(results, obligations, total);
    } else if Sum(Prices(obligations)) == 0.0 {
      ProportionalConserves(results, Ones(n), total, EqualAllocation);
    } else {
      ProportionalConserves(results, Prices(obligations), total, TransactionPriceProportional);
    }
  }

  lemma {:induction false} UnknownCountPositive(obligations: seq<IdentifiedObligation>)
    ensures UnknownCount(obligations) > 0 <==> !HasAllSSP(obligations)
  {
    if obligations != [] {
      var k := |obligations| - 1;
      UnknownCountPositive(obligations[..k]);
      assert obligations == obligations[..k] + [obligations[k]];
    }
  }

  /** A cent split over two obligations without a selling price becomes two cents. */
  lemma ResidualDriftExample(results: seq<AllocationResult>, obligations: seq<IdentifiedObligation>)
    requires |obligations| == 3 && IsResidual(results, obligations, 1.01)
    requires obligations[0].standaloneSellingPrice == Some(1.0)
    requires obligations[1].standaloneSellingPrice == obligations[2].standaloneSellingPrice == None
    ensures Sum(AllocatedAmounts(results)) == 1.02
  {
    assert obligations[..0] == [] && obligations[..1][..0] == [];
    assert obligations[..2][..1] == obligations[..1];
    assert Remaining(obligations[..1], 1.01) == 0.01 && UnknownCount(obligations[..1]) == 0;
    assert Remaining(obligations[..2], 1.01) == 0.01 && UnknownCount(obligations[..2]) == 1;
    assert Remaining(obligations, 1.01) == 0.01 && UnknownCount(obligations) == 2;
    assert results[0].allocatedAmount == 1.0;
    assert results[1].allocatedAmount == results[2].allocatedAmount == 0.01;
    SumPush([], 1.0);
    SumPush([1.0], 0.01);
    SumPush([1.0, 0.01], 0.01);
    assert AllocatedAmounts(results) == [] + [1.0] + [0.01] + [0.01];
  }

  // ---------- When the remainder is negative ----------

  lemma {:induction false} SumSame(s: seq<real>, x: real)
    requires forall i :: 0 <= i < |s| ==> s[i] == x
    ensures Sum(s) == Times(|s|, x)
  {
    hide Times;
    TimesNext(0, x);
    if s != [] {
      SumSame(s[..|s| - 1], x);
      TimesNext(|s| - 1, x);
    }
  }

  lemma {:induction false} TimesMonotone(count: nat, a: real, b: real)
    requires count > 0
    ensures a < b <==> Times(count, a) < Times(count, b)
  {
    hide Times;
    TimesNext(count - 1, a);
    TimesNext(count - 1, b);
    if count > 1 {
      TimesMonotone(count - 1, a, b);
      TimesMonotone(count - 1, b, a);
    } else {
      TimesNext(0, a);
      TimesNext(0, b);
    }
  }

  lemma TimesOfWhole(count: nat, q: nat)
    ensures Times(count, q as real) == (count * q) as real
    ensures Times(count, q as real + 1.0) == (count * q) as real + count as real
    ensures Times(count, q as real + 0.5) == (count * q) as real + count as real / 2.0
  {
    assert (count * q) as real == count as real * q as real;
  }

  lemma Quotient(cents: nat, count: nat, share: real)
    requires count > 0 && Times(count, share) == cents as real
    ensures var q := (cents / count) as real; q <= share < q + 1.0
    ensures share >= (cents / count) as real + 0.5 <==> 2 * (cents % count) >= count
  {
    var q, r := cents / count, cents % count;
    assert cents == count * q + r;
    TimesOfWhole(count, q);
    TimesMonotone(count, share, q as real);
    TimesMonotone(count, share, q as real + 1.0);
    TimesMonotone(count, share, q as real + 0.5);
    hide Times;
  }

  lemma CentsOfPart(cents: nat, count: nat)
    requires count > 0
    ensures Times(count, Part(cents as real / 100.0, count) * 100.0) == cents as real
  {
    PartTimes(cents as real / 100.0, count);
  }

  /** Dividing whole cents equally rounds up from half of the divisor on. */
  lemma RoundedPart(cents: nat, count: nat)
    requires count > 0
    ensures Round2(Part(cents as real / 100.0, count)) ==
      (cents / count + if 2 * (cents % count) >= count then 1 else 0) as real / 100.0
  {
    var x, q := Part(cents as real / 100.0, count), cents / count;
    hide Part, Times;
    CentsOfPart(cents, count);
    Quotient(cents, count, x * 100.0);
    RoundedFraction(x, q, 2 * (cents % count) >= count);
  }

  lemma RoundedFraction(x: real, q: int, up: bool)
    requires q as real <= x * 100.0 < q as real + 1.0
    requires x * 100.0 >= q as real + 0.5 <==> up
    ensures Round2(x) == (q + if up then 1 else 0) as real / 100.0
  {
    FloorIs(x * 100.0 + 0.5, q + if up then 1 else 0);
  }

  lemma FloorIs(y: real, n: int)
    requires n as real <= y < n as real + 1.0
    ensures y.Floor == n
  {
  }

  ghost predicate AllEqual(s: seq<real>, x: real) {
    forall i :: 0 <= i < |s| ==> s[i] == x
  }

  lemma ShareIsEqual(price: real, sum: real, total: real, count: nat)
    requires sum != 0.0 && count > 0
    ensures Share(price, sum, total) == Part(total, count) <==> total == 0.0 || price == Part(sum, count)
  {
    var n := count as real;
    assert price / sum * sum == price;
    assert total / n * n == total;
    assert Share(price, sum, total) == price / sum * total;
    if total != 0.0 && price / sum * total == total / n {
      assert price / sum * total / total == price / sum;
      assert total / n / total == 1.0 / n;
      assert price == 1.0 / n * sum;
    }
  }

  lemma PartOfTimes(count: nat, x: real)
    requires count > 0
    ensures Part(Times(count, x), count) == x
  {
  }

  /** The rounded shares, before the last item takes the remainder. */
  function Rounded(shares: seq<real>): (amounts: seq<real>)
    ensures |amounts| == |shares|
    ensures forall i :: 0 <= i < |shares| ==> amounts[i] == Round2(shares[i])
  {
    seq(|shares|, i requires 0 <= i < |shares| => Round2(shares[i]))
  }

  /**
   * With any weights the last amount is negative exactly when the rounded shares of the others
   * come to more than the rounded total.
   */
  lemma LastNegativeIff(results: seq<AllocationResult>, weights: seq<real>, total: real, basis: AllocationBasis)
    requires IsProportional(results, weights, total, basis)
    ensures |results| == |weights| > 0
    ensures var n := |weights|;
      results[n - 1].allocatedAmount < 0.0 <==>
      Sum(Rounded(Shares(weights, Sum(weights), total))[..n - 1]) > Round2(total)
  {
    hide Round2, Sum, Share, IsCents, LastTakesRemainder;
    var n, amounts := |weights|, AllocatedAmounts(results);
    RemainderSign(amounts, Shares(weights, Sum(weights), total), total);
  }

  lemma RemainderSign(amounts: seq<real>, shares: seq<real>, total: real)
    requires LastTakesRemainder(amounts, shares, total)
    ensures |amounts| == |shares| > 0
    ensures var n := |shares|; amounts[n - 1] < 0.0 <==> Sum(Rounded(shares)[..n - 1]) > Round2(total)
  {
    hide Round2, Sum, IsCents;
    var n := |shares|;
    SplitConserves(amounts, shares, total);
    assert amounts[..n - 1] == Rounded(shares)[..n - 1];
    SumTake(amounts, n - 1);
    assert amounts[..n] == amounts;
  }

  /**
   * Splitting c cents by n equal weights leaves the last obligation a negative amount exactly when
   * the parts round up and the quotient and remainder of c by n add up to less than n - 1.
   */
  lemma EqualLastNegative(results: seq<AllocationResult>, weights: seq<real>, basis: AllocationBasis, cents: nat)
    requires IsProportional(results, weights, cents as real / 100.0, basis)
    requires forall i, j :: 0 <= i < |weights| && 0 <= j < |weights| ==> weights[i] == weights[j]
    ensures |results| == |weights| > 0
    ensures var n := |weights|;
      && results[n - 1].allocatedAmount ==
           (cents - (n - 1) * (cents / n + if 2 * (cents % n) >= n then 1 else 0)) as real / 100.0
      && (results[n - 1].allocatedAmount < 0.0 <==> 2 * (cents % n) >= n && cents / n + cents % n < n - 1)
  {
    hide Round2, IsCents, Times, Sum, Part, IsProportional, Share;
    var total := cents as real / 100.0;
    var amounts := AllocatedAmounts(results);
    WholeNumberOfCents(total, cents);
    ProportionalConserves(results, weights, total, basis);
    EqualParts(results, weights, total, basis);
    var n := |weights|;
    var part := Round2(Part(total, n));
    RoundedPart(cents, n);
    SumSame(amounts[..n - 1], part);
    SumTake(amounts, n - 1);
    assert amounts[..n] == amounts;
    LastOfEqual(cents, n, part, amounts[n - 1]);
  }

  lemma EqualParts(results: seq<AllocationResult>, weights: seq<real>, total: real, basis: AllocationBasis)
    requires IsProportional(results, weights, total, basis)
    requires forall i, j :: 0 <= i < |weights| && 0 <= j < |weights| ==> weights[i] == weights[j]
    ensures |results| == |weights| > 0
    ensures forall i :: 0 <= i < |weights| - 1 ==> results[i].allocatedAmount == Round2(Part(total, |weights|))
  {
    hide Round2, Share, Sum, Part;
    var n := |weights|;
    SumSame(weights, weights[0]);
    PartOfTimes(n, weights[0]);
    ShareIsEqual(weights[0], Sum(weights), total, n);
    hide Times;
    forall i | 0 <= i < n - 1 ensures results[i].allocatedAmount == Round2(Part(total, n)) {
      assert AllocatedAmounts(results)[i] == Round2(Shares(weights, Sum(weights), total)[i]);
    }
  }

  lemma LastOfEqual(cents: nat, n: nat, part: real, last: real)
    requires n > 0
    requires part == (cents / n + if 2 * (cents % n) >= n then 1 else 0) as real / 100.0
    requires Times(n - 1, part) + last == cents as real / 100.0
    ensures last == (cents - (n - 1) * (cents / n + if 2 * (cents % n) >= n then 1 else 0)) as real / 100.0
    ensures last < 0.0 <==> 2 * (cents % n) >= n && cents / n + cents % n < n - 1
  {
    var q, r := cents / n, cents % n;
    var up := if 2 * r >= n then 1 else 0;
    assert cents == q * n + r;
    assert Times(n - 1, part) == ((n - 1) * (q + up)) as real / 100.0;
    assert (n - 1) * (q + up) == q * n - q + (if up == 1 then n - 1 else 0);
  }

  // ---------- When the split is equal ----------

  /** What obligations without selling prices are given before rounding. */
  function ExactShares(obligations: seq<IdentifiedObligation>, total: real): (shares: seq<real>)
    ensures |shares| == |obligations|
  {
    var sum := Sum(Prices(obligations));
    if sum == 0.0 then seq(|obligations|, i requires 0 <= i < |obligations| => Part(total, |obligations|))
    else Shares(Prices(obligations), sum, total)
  }

  ghost predicate SamePrices(obligations: seq<IdentifiedObligation>) {
    forall i, j :: 0 <= i < |obligations| && 0 <= j < |obligations| ==>
      obligations[i].transactionPrice == obligations[j].transactionPrice
  }

  lemma EqualPrices(obligations: seq<IdentifiedObligation>)
    requires obligations != [] && SamePrices(obligations)
    ensures AllEqual(Prices(obligations), Part(Sum(Prices(obligations)), |obligations|))
  {
    hide Sum;
    SumSame(Prices(obligations), obligations[0].transactionPrice);
    PartOfTimes(|obligations|, obligations[0].transactionPrice);
    hide Times;
  }

  /**
   * Without selling prices, two or more obligations share the total equally before rounding if and
   * only if their prices add up to zero, there is nothing to share, or their prices are all the same.
   */
  lemma EqualSplitIff(results: seq<AllocationResult>, obligations: seq<IdentifiedObligation>, total: real)
    requires IsAllocation(results, obligations, total) && |obligations| >= 2 && !HasSomeSSP(obligations)
    ensures LastTakesRemainder(AllocatedAmounts(results), ExactShares(obligations, total), total)
    ensures AllEqual(ExactShares(obligations, total), Part(total, |obligations|)) <==>
            Sum(Prices(obligations)) == 0.0 || total == 0.0 || SamePrices(obligations)
  {
    hide LastTakesRemainder, Sum, Share, IsResidual;
    var n, prices := |obligations|, Prices(obligations);
    var sum := Sum(prices);
    NoSellingPrices(obligations);
    if sum == 0.0 {
      OnesShareEqually(n, total);
      assert Shares(Ones(n), Sum(Ones(n)), total) == ExactShares(obligations, total);
    } else {
      forall i | 0 <= i < n
        ensures ExactShares(obligations, total)[i] == Part(total, n) <==> total == 0.0 || prices[i] == Part(sum, n)
      {
        ShareIsEqual(prices[i], sum, total, n);
      }
      hide Part;
      if SamePrices(obligations) {
        EqualPrices(obligations);
      }
    }
  }

  lemma OnesShareEqually(n: nat, total: real)
    requires n > 0
    ensures Sum(Ones(n)) != 0.0 && AllEqual(Shares(Ones(n), Sum(Ones(n)), total), Part(total, n))
  {
    SumOnes(n);
    EqualShare(n, total);
    hide Share, Sum;
  }

  lemma NoSellingPrices(obligations: seq<IdentifiedObligation>)
    requires obligations != [] && !HasSomeSSP(obligations)
    ensures !HasAllSSP(obligations)
  {
    assert obligations[0].standaloneSellingPrice.None?;
  }

  /** Prices of 1 and 3 make the parts of 4 come out as 1 and 3, not as 2 and 2. */
  lemma EqualSplitFailsExample(results: seq<AllocationResult>, obligations: seq<IdentifiedObligation>)
    requires |obligations| == 2 && !HasSomeSSP(obligations) && IsAllocation(results, obligations, 4.0)
    requires obligations[0].transactionPrice == 1.0 && obligations[1].transactionPrice == 3.0
    ensures AllocatedAmounts(results) == [1.0, 3.0]
  {
    var prices, amounts := Prices(obligations), AllocatedAmounts(results);
    NoSellingPrices(obligations);
    SumPush([], 1.0);
    SumPush([1.0], 3.0);
    assert prices == [] + [1.0] + [3.0] && Sum(prices) == 4.0;
    assert Shares(prices, 4.0, 4.0)[0] == 1.0;
    assert amounts[0] == Round2(1.0) == 1.0;
    assert amounts[..1] == [] + [amounts[0]] && Sum(amounts[..1]) == 1.0;
    assert amounts[1] == Round2(3.0) == 3.0;
  }

  // ---------- Which strategy splits a price, and what its percentages say ----------

  /** All results name one basis. */
  ghost predicate AllOn(results: seq<AllocationResult>, basis: AllocationBasis) {
    forall i :: 0 <= i < |results| ==> results[i].allocationBasis == basis
  }

  /** Known selling prices are taken as they are, and the others share the rest. */
  ghost predicate OnSellingPrices(results: seq<AllocationResult>, obligations: seq<IdentifiedObligation>) {
    && |results| == |obligations|
    && forall i :: 0 <= i < |results| ==>
         if obligations[i].standaloneSellingPrice.Some? then results[i].allocationBasis == SspKnown
         else results[i].allocationBasis == Residual || results[i].allocationBasis == ResidualZero
  }

  /**
   * Two or more obligations are split by selling prices when all have one, by what the known ones
   * leave when only some have, and by transaction prices when none has; equally when the prices that
   * would decide add up to zero.
   */
  lemma StrategyBySellingPrices(
    results: seq<AllocationResult>, obligations: seq<IdentifiedObligation>, total: real)
    requires IsAllocation(results, obligations, total) && |obligations| >= 2
    ensures |results| == |obligations|
    ensures (forall i :: 0 <= i < |obligations| ==> obligations[i].standaloneSellingPrice.Some?) ==>
      AllOn(results, if Sum(Ssps(obligations)) == 0.0 then EqualAllocation else SspProportional)
    ensures (forall i :: 0 <= i < |obligations| ==> obligations[i].standaloneSellingPrice.None?) ==>
      AllOn(results, if Sum(Prices(obligations)) == 0.0 then EqualAllocation else TransactionPriceProportional)
    ensures (exists i :: IsKnown(obligations, i)) && (exists i :: IsUnknown(obligations, i)) ==>
      OnSellingPrices(results, obligations)
  {
    hide Sum, LastTakesRemainder, Round2, Round4, Share, Part, Remaining, PctOf;
    if HasAllSSP(obligations) {
      assert obligations[0].standaloneSellingPrice.Some?;
    } else if HasSomeSSP(obligations) {
      var i :| 0 <= i < |obligations| && obligations[i].standaloneSellingPrice.Some?;
      assert |results| == |obligations|;
    } else {
      assert obligations[0].standaloneSellingPrice.None?;
    }
  }

  /** A percentage is a hundred times the part of the total, to four decimals; of a total of zero there is none. */
  lemma PercentageOfTotal(amount: real, total: real)
    ensures var pct := PctOf(amount, total);
      && (pct.None? <==> total == 0.0)
      && (total != 0.0 ==> Abs(pct.value - amount * 100.0 / total) <= 0.00005)
  {
    if total != 0.0 {
      assert amount / total * 100.0 == amount * 100.0 / total;
    }
    hide Round4;
  }

  /** The percentages of a proportional split are the shares of a hundred, to four decimals each. */
  lemma ProportionalPercentages(
    results: seq<AllocationResult>, weights: seq<real>, total: real, basis: AllocationBasis, i: nat)
    requires IsProportional(results, weights, total, basis) && i < |weights|
    ensures |results| == |weights| && results[i].allocationPct.Some?
    ensures Abs(results[i].allocationPct.value - weights[i] * 100.0 / Sum(weights)) <= 0.00005
  {
    hide LastTakesRemainder, Sum, Round4;
    var whole := Sum(weights);
    assert weights[i] / whole * 100.0 == weights[i] * 100.0 / whole;
  }

  /** The validator accepts what comes within the tolerance of the price, on either side. */
  lemma ValidatesWithin(allocations: seq<AllocationResult>, total: real, tolerance: real)
    ensures ValidateAllocations(allocations, total, tolerance) <==>
            total - tolerance <= Sum(AllocatedAmounts(allocations)) <= total + tolerance
  {
    hide Sum;
  }
}
