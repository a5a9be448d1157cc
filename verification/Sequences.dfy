/** Folds over arrays that several components share, in the left-to-right order of Array.reduce. */
module Sequences {
  function Sum(s: seq<real>): real {
    if s == [] then 0.0 else Sum(s[..|s| - 1]) + s[|s| - 1]
  }

  lemma SumPush(s: seq<real>, x: real)
    ensures Sum(s + [x]) == Sum(s) + x
  {
    assert (s + [x])[..|s|] == s;
  }

  lemma SumTake(s: seq<real>, i: nat)
    requires i < |s|
    ensures Sum(s[..i + 1]) == Sum(s[..i]) + s[i]
  {
    assert s[..i + 1][..i] == s[..i];
  }

  lemma {:induction false} SumConcat(a: seq<real>, b: seq<real>)
    ensures Sum(a + b) == Sum(a) + Sum(b)
  {
    if b == [] {
      assert a + b == a;
    } else {
      var k := |b| - 1;
      assert (a + b)[..|a + b| - 1] == a + b[..k];
      SumConcat(a, b[..k]);
    }
  }

  /** The sum of a pointwise sum is the sum of the sums. */
  lemma {:induction false} SumPointwise(a: seq<real>, b: seq<real>, c: seq<real>)
    requires |a| == |b| == |c|
    requires forall i :: 0 <= i < |a| ==> c[i] == a[i] + b[i]
    ensures Sum(c) == Sum(a) + Sum(b)
  {
    if c != [] {
      var k := |c| - 1;
      SumPointwise(a[..k], b[..k], c[..k]);
    }
  }

  lemma {:induction false} SumScaled(a: seq<real>, c: seq<real>, factor: real)
    requires |a| == |c|
    requires forall i :: 0 <= i < |a| ==> c[i] == a[i] * factor
    ensures Sum(c) == Sum(a) * factor
  {
    if c != [] {
      var k := |c| - 1;
      SumScaled(a[..k], c[..k], factor);
    }
  }

  /** A set or map filled in a loop: the distinct elements in order of first occurrence. */
  function Distinct<T(==)>(s: seq<T>): seq<T> {
    if s == [] then []
    else
      var rest := Distinct(s[..|s| - 1]);
      if s[|s| - 1] in rest then rest else rest + [s[|s| - 1]]
  }

  ghost predicate NoDuplicates<T>(s: seq<T>) {
    forall i, j :: 0 <= i < j < |s| ==> s[i] != s[j]
  }

  lemma {:induction false} DistinctMembers<T(!new)>(s: seq<T>)
    ensures NoDuplicates(Distinct(s))
    ensures forall x :: x in Distinct(s) <==> x in s
    ensures |Distinct(s)| <= |s|
  {
    if s != [] {
      var k := |s| - 1;
      DistinctMembers(s[..k]);
      assert s == s[..k] + [s[k]];
    }
  }

  lemma {:induction false} DistinctIdentity<T(!new)>(s: seq<T>)
    requires NoDuplicates(s)
    ensures Distinct(s) == s
  {
    if s != [] {
      var k := |s| - 1;
      DistinctIdentity(s[..k]);
      assert s == s[..k] + [s[k]];
    }
  }

  /** Array.filter. */
  function Filter<T>(p: T -> bool, s: seq<T>): seq<T> {
    if s == [] then []
    else
      var rest := Filter(p, s[..|s| - 1]);
      if p(s[|s| - 1]) then rest + [s[|s| - 1]] else rest
  }

  lemma FilterTake<T(!new)>(p: T -> bool, s: seq<T>, i: nat)
    requires i < |s|
    ensures Filter(p, s[..i + 1]) == if p(s[i]) then Filter(p, s[..i]) + [s[i]] else Filter(p, s[..i])
  {
    assert s[..i + 1][..i] == s[..i];
  }

  lemma {:induction false} FilterMembers<T(!new)>(p: T -> bool, s: seq<T>)
    ensures forall x :: x in Filter(p, s) <==> x in s && p(x)
    ensures |Filter(p, s)| <= |s|
  {
    if s != [] {
      var k := |s| - 1;
      FilterMembers(p, s[..k]);
      assert s == s[..k] + [s[k]];
    }
  }

  lemma {:induction false} FilterAll<T(!new)>(p: T -> bool, s: seq<T>)
    requires forall x :: x in s ==> p(x)
    ensures Filter(p, s) == s
  {
    if s != [] {
      var k := |s| - 1;
      assert s == s[..k] + [s[k]];
      FilterAll(p, s[..k]);
    }
  }

  /** Filtering keeps the order: anything strictly increasing along `s` still is. */
  lemma {:induction false} FilterKeepsOrder<T(!new)>(p: T -> bool, s: seq<T>, position: T -> int)
    requires forall i, j :: 0 <= i < j < |s| ==> position(s[i]) < position(s[j])
    ensures forall i, j :: 0 <= i < j < |Filter(p, s)| ==> position(Filter(p, s)[i]) < position(Filter(p, s)[j])
  {
    if s != [] {
      var k := |s| - 1;
      FilterKeepsOrder(p, s[..k], position);
      FilterMembers(p, s[..k]);
      var rest := Filter(p, s[..k]);
      forall i | 0 <= i < |rest| ensures position(rest[i]) < position(s[k]) {
        assert rest[i] in rest;
        var j :| 0 <= j < k && s[..k][j] == rest[i];
      }
    }
  }
}
