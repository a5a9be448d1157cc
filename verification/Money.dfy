/** Amounts in currency units, rounded to whole cents, and the "last item takes the remainder" split. */
module Money {
  import opened Sequences

  /** Math.round: ties go toward +infinity (section 21.3.2.28 of ECMA-262). */
  function MathRound(x: real): int {
    (x + 0.5).Floor
  }

  predicate IsCents(x: real) {
    (x * 100.0).Floor as real == x * 100.0
  }

  /** `round(value, 2)` */
  function Round2(value: real): (r: real)
    ensures IsCents(r)
    ensures value - 0.005 < r <= value + 0.005
  {
    MathRound(value * 100.0) as real / 100.0
  }

  /** `round(value, 4)` */
  function Round4(value: real): (r: real)
    ensures (r * 10000.0).Floor as real == r * 10000.0
    ensures value - 0.00005 < r <= value + 0.00005
  {
    MathRound(value * 10000.0) as real / 10000.0
  }

  /** `round(value, 6)` */
  function Round6(value: real): (r: real)
    ensures (r * 1000000.0).Floor as real == r * 1000000.0
    ensures value - 0.0000005 < r <= value + 0.0000005
  {
    MathRound(value * 1000000.0) as real / 1000000.0
  }

  function Abs(x: real): (r: real)
    ensures r >= 0.0 && (r == x || r == -x)
  {
    if x < 0.0 then -x else x
  }

  function Min(a: real, b: real): (r: real)
    ensures r <= a && r <= b && (r == a || r == b)
  {
    if a <= b then a else b
  }

  function Max(a: real, b: real): (r: real)
    ensures r >= a && r >= b && (r == a || r == b)
  {
    if a >= b then a else b
  }

  lemma WholeNumberOfCents(x: real, n: int)
    requires x * 100.0 == n as real
    ensures IsCents(x)
  {
  }

  lemma CentsClosed(a: real, b: real)
    requires IsCents(a) && IsCents(b)
    ensures IsCents(a + b) && IsCents(a - b)
  {
    var x, y := (a * 100.0).Floor, (b * 100.0).Floor;
    WholeNumberOfCents(a + b, x + y);
    WholeNumberOfCents(a - b, x - y);
  }

  lemma FloorShift(r: real, n: int)
    ensures (r + n as real).Floor == r.Floor + n
  {
  }

  /** Rounding commutes with adding whole cents; in particular it fixes them. */
  lemma RoundShift(x: real, cents: real)
    requires IsCents(cents)
    ensures Round2(x + cents) == Round2(x) + cents
    ensures Round2(x - cents) == Round2(x) - cents
    ensures Round2(cents) == cents
  {
    var c := (cents * 100.0).Floor;
    FloorShift(x * 100.0 + 0.5, c);
    FloorShift(x * 100.0 + 0.5, -c);
    FloorShift(0.5, c);
    assert MathRound((x + cents) * 100.0) == MathRound(x * 100.0) + c;
    assert MathRound((x - cents) * 100.0) == MathRound(x * 100.0) - c;
    assert MathRound(cents * 100.0) == c;
  }

  ghost predicate AllCents(s: seq<real>) {
    forall i :: 0 <= i < |s| ==> IsCents(s[i])
  }

  lemma {:induction false} SumCents(s: seq<real>)
    requires AllCents(s)
    ensures IsCents(Sum(s))
  {
    if s != [] {
      SumCents(s[..|s| - 1]);
      CentsClosed(Sum(s[..|s| - 1]), s[|s| - 1]);
    }
  }

  /** Every item but the last is its rounded share; the last is the rounded rest of the total. */
  ghost predicate LastTakesRemainder(amounts: seq<real>, shares: seq<real>, total: real) {
    && |amounts| == |shares| > 0
    && (forall i :: 0 <= i < |amounts| - 1 ==> amounts[i] == Round2(shares[i]))
    && amounts[|amounts| - 1] == Round2(total - Sum(amounts[..|amounts| - 1]))
  }

  lemma SplitConserves(amounts: seq<real>, shares: seq<real>, total: real)
    requires LastTakesRemainder(amounts, shares, total)
    ensures AllCents(amounts)
    ensures Sum(amounts) == Round2(total)
    ensures IsCents(total) ==> Sum(amounts) == total
  {
    var k := |amounts| - 1;
    SumCents(amounts[..k]);
    RoundShift(total, Sum(amounts[..k]));
    if IsCents(total) {
      RoundShift(0.0, total);
    }
  }

  /** Rounding errors of the items before the last add up to at most half a cent each. */
  lemma {:induction false} SplitDrift(amounts: seq<real>, shares: seq<real>, k: nat)
    requires k <= |amounts| && k <= |shares|
    requires forall i :: 0 <= i < k ==> amounts[i] == Round2(shares[i])
    ensures Abs(Sum(amounts[..k]) - Sum(shares[..k])) <= 0.005 * k as real
  {
    if k > 0 {
      SplitDrift(amounts, shares, k - 1);
      SumTake(amounts, k - 1);
      SumTake(shares, k - 1);
    }
  }

  lemma SplitBounds(amounts: seq<real>, shares: seq<real>, total: real)
    requires LastTakesRemainder(amounts, shares, total)
    requires Sum(shares) == total
    ensures forall i :: 0 <= i < |amounts| - 1 ==> Abs(amounts[i] - shares[i]) <= 0.005
    ensures var n := |amounts|; Abs(amounts[n - 1] - shares[n - 1]) <= 0.005 * n as real
    ensures var n := |amounts|;
      IsCents(total) ==> Abs(amounts[n - 1] - shares[n - 1]) <= 0.005 * (n - 1) as real
  {
    var k := |amounts| - 1;
    SplitDrift(amounts, shares, k);
    if IsCents(total) {
      SumCents(amounts[..k]);
      CentsClosed(total, Sum(amounts[..k]));
      RoundShift(0.0, total - Sum(amounts[..k]));
    }
  }
}
