/** Array.prototype.sort with a numeric comparator: a stable sort by an integer key. */
module Sorting {
  function Insert<T>(x: T, s: seq<T>, key: T -> int): seq<T> {
    if s == [] || key(s[|s| - 1]) <= key(x) then s + [x]
    else Insert(x, s[..|s| - 1], key) + [s[|s| - 1]]
  }

  function StableSort<T>(s: seq<T>, key: T -> int): seq<T> {
    if s == [] then [] else Insert(s[|s| - 1], StableSort(s[..|s| - 1], key), key)
  }

  ghost predicate Sorted<T(!new)>(s: seq<T>, key: T -> int) {
    forall i, j :: 0 <= i < j < |s| ==> key(s[i]) <= key(s[j])
  }

  /** Ordered by key, and among equal keys by position. */
  ghost predicate Before<T(!new)>(a: T, b: T, key: T -> int, position: T -> int) {
    key(a) < key(b) || (key(a) == key(b) && position(a) < position(b))
  }

  ghost predicate OrderedBy<T(!new)>(s: seq<T>, key: T -> int, position: T -> int) {
    forall i, j :: 0 <= i < j < |s| ==> Before(s[i], s[j], key, position)
  }

  lemma {:induction false} InsertContents<T(!new)>(x: T, s: seq<T>, key: T -> int)
    ensures multiset(Insert(x, s, key)) == multiset(s) + multiset{x}
  {
    if s == [] || key(s[|s| - 1]) <= key(x) {
    } else {
      var k := |s| - 1;
      InsertContents(x, s[..k], key);
      assert s == s[..k] + [s[k]];
    }
  }

  lemma InsertMembers<T(!new)>(x: T, s: seq<T>, key: T -> int)
    ensures forall y :: y in Insert(x, s, key) <==> y == x || y in s
  {
    InsertContents(x, s, key);
    forall y ensures y in Insert(x, s, key) <==> y == x || y in s {
      assert y in Insert(x, s, key) <==> y in multiset(Insert(x, s, key));
      assert y in s <==> y in multiset(s);
    }
  }

  lemma {:induction false} InsertSorted<T(!new)>(x: T, s: seq<T>, key: T -> int)
    requires Sorted(s, key)
    ensures Sorted(Insert(x, s, key), key)
  {
    if s == [] || key(s[|s| - 1]) <= key(x) {
    } else {
      var k := |s| - 1;
      InsertSorted(x, s[..k], key);
      InsertMembers(x, s[..k], key);
      var front := Insert(x, s[..k], key);
      forall i | 0 <= i < |front| ensures key(front[i]) <= key(s[k]) {
        assert front[i] in front;
        if front[i] != x {
          var j :| 0 <= j < k && s[..k][j] == front[i];
          assert s[..k][j] == s[j];
        }
      }
    }
  }

  lemma {:induction false} InsertOrdered<T(!new)>(x: T, s: seq<T>, key: T -> int, position: T -> int)
    requires OrderedBy(s, key, position)
    requires forall i :: 0 <= i < |s| ==> position(s[i]) < position(x)
    ensures OrderedBy(Insert(x, s, key), key, position)
  {
    if s == [] || key(s[|s| - 1]) <= key(x) {
    } else {
      var k := |s| - 1;
      InsertOrdered(x, s[..k], key, position);
      InsertMembers(x, s[..k], key);
      var front := Insert(x, s[..k], key);
      forall i | 0 <= i < |front| ensures Before(front[i], s[k], key, position) {
        assert front[i] in front;
        if front[i] != x {
          var j :| 0 <= j < k && s[..k][j] == front[i];
          assert s[..k][j] == s[j];
        }
      }
    }
  }

  lemma {:induction false} SortContents<T(!new)>(s: seq<T>, key: T -> int)
    ensures multiset(StableSort(s, key)) == multiset(s)
    ensures |StableSort(s, key)| == |s|
    ensures forall x :: x in StableSort(s, key) <==> x in s
  {
    if s != [] {
      var k := |s| - 1;
      SortContents(s[..k], key);
      InsertContents(s[k], StableSort(s[..k], key), key);
      InsertMembers(s[k], StableSort(s[..k], key), key);
      assert s == s[..k] + [s[k]];
      assert |multiset(StableSort(s, key))| == |multiset(s)|;
    }
  }

  lemma {:induction false} SortSorts<T(!new)>(s: seq<T>, key: T -> int)
    ensures Sorted(StableSort(s, key), key)
  {
    if s != [] {
      SortSorts(s[..|s| - 1], key);
      InsertSorted(s[|s| - 1], StableSort(s[..|s| - 1], key), key);
    }
  }

  /** Stability: elements that compare equal keep the order they came in. */
  lemma {:induction false} SortStable<T(!new)>(s: seq<T>, key: T -> int, position: T -> int)
    requires forall i, j :: 0 <= i < j < |s| ==> position(s[i]) < position(s[j])
    ensures OrderedBy(StableSort(s, key), key, position)
  {
    if s != [] {
      var k := |s| - 1;
      SortStable(s[..k], key, position);
      SortContents(s[..k], key);
      var rest := StableSort(s[..k], key);
      forall i | 0 <= i < |rest| ensures position(rest[i]) < position(s[k]) {
        assert rest[i] in rest;
        var j :| 0 <= j < k && s[..k][j] == rest[i];
      }
      InsertOrdered(s[k], rest, key, position);
    }
  }

  ghost predicate StrictlySorted<T>(s: seq<T>, key: T -> int) {
    forall i, j :: 0 <= i < j < |s| ==> key(s[i]) < key(s[j])
  }

  /** Distinct keys come out strictly increasing. */
  lemma {:induction false} SortStrict<T(!new)>(s: seq<T>, key: T -> int)
    requires forall i, j :: 0 <= i < j < |s| ==> key(s[i]) != key(s[j])
    ensures StrictlySorted(StableSort(s, key), key)
  {
    if s != [] {
      var k := |s| - 1;
      var rest := StableSort(s[..k], key);
      SortStrict(s[..k], key);
      SortContents(s[..k], key);
      forall i | 0 <= i < |rest| ensures key(rest[i]) != key(s[k]) {
        assert rest[i] in rest;
        var j :| 0 <= j < k && s[..k][j] == rest[i];
      }
      InsertStrict(s[k], rest, key);
    }
  }

  lemma {:induction false} InsertStrict<T(!new)>(x: T, s: seq<T>, key: T -> int)
    requires StrictlySorted(s, key)
    requires forall i :: 0 <= i < |s| ==> key(s[i]) != key(x)
    ensures StrictlySorted(Insert(x, s, key), key)
  {
    if s == [] || key(s[|s| - 1]) <= key(x) {
    } else {
      var k := |s| - 1;
      InsertStrict(x, s[..k], key);
      InsertMembers(x, s[..k], key);
      var front := Insert(x, s[..k], key);
      forall i | 0 <= i < |front| ensures key(front[i]) < key(s[k]) {
        assert front[i] in front;
        if front[i] != x {
          var j :| 0 <= j < k && s[..k][j] == front[i];
          assert s[..k][j] == s[j];
        }
      }
    }
  }

  /** n strictly increasing keys among 0..n-1 are 0..n-1 themselves. */
  lemma {:induction false} StrictIsIdentity<T(!new)>(s: seq<T>, key: T -> int, bound: int)
    requires StrictlySorted(s, key)
    requires forall i :: 0 <= i < |s| ==> 0 <= key(s[i]) < bound
    ensures |s| <= bound || s == []
    ensures |s| == bound ==> forall i :: 0 <= i < |s| ==> key(s[i]) == i
  {
    if s != [] {
      var k := |s| - 1;
      StrictIsIdentity(s[..k], key, key(s[k]));
      assert forall i :: 0 <= i < k ==> s[..k][i] == s[i];
    }
  }
}
