/** The text that an issue key is hashed from (packages/rules/src/utils.ts, generateIssueKey). */
module IssueKey {
  import opened Wrappers
  import opened Sequences
  import opened Text

  /** One property of the dimensions object; None is `undefined`. */
  datatype Dimension = Dimension(name: string, value: Option<string>)

  // ---------- Array.prototype.sort on strings ----------

  /** Lexicographic order. */
  predicate Less(a: string, b: string) {
    b != [] && (a == [] || a[0] < b[0] || (a[0] == b[0] && Less(a[1..], b[1..])))
  }

  lemma {:induction false} LessIsTotal(a: string, b: string)
    ensures Less(a, b) || a == b || Less(b, a)
    ensures !(Less(a, b) && Less(b, a)) && !Less(a, a)
  {
    if a != [] && b != [] && a[0] == b[0] {
      LessIsTotal(a[1..], b[1..]);
      assert a == [a[0]] + a[1..] && b == [b[0]] + b[1..];
    }
    if a != [] { LessIsTotal(a[1..], a[1..]); }
  }

  lemma {:induction false} LessIsTransitive(a: string, b: string, c: string)
    requires Less(a, b) && Less(b, c)
    ensures Less(a, c)
  {
    if a != [] && a[0] == b[0] == c[0] {
      LessIsTransitive(a[1..], b[1..], c[1..]);
    }
  }

  function InsertName(x: string, s: seq<string>): seq<string> {
    if s == [] || !Less(x, s[|s| - 1]) then s + [x] else InsertName(x, s[..|s| - 1]) + [s[|s| - 1]]
  }

  function SortNames(s: seq<string>): seq<string> {
    if s == [] then [] else InsertName(s[|s| - 1], SortNames(s[..|s| - 1]))
  }

  ghost predicate Ascending(s: seq<string>) {
    forall i, j :: 0 <= i < j < |s| ==> Less(s[i], s[j])
  }

  lemma {:induction false} InsertNameAscends(x: string, s: seq<string>)
    requires Ascending(s) && x !in s
    ensures Ascending(InsertName(x, s))
    ensures forall y :: y in InsertName(x, s) <==> y == x || y in s
  {
    if s == [] {
    } else {
      var k := |s| - 1;
      assert s == s[..k] + [s[k]];
      if Less(x, s[k]) {
        InsertNameAscends(x, s[..k]);
        var front := InsertName(x, s[..k]);
        forall i | 0 <= i < |front| ensures Less(front[i], s[k]) {
          assert front[i] in front;
        }
      } else {
        LessIsTotal(x, s[k]);
        forall i | 0 <= i < |s| ensures Less(s[i], x) {
          if i < k { LessIsTransitive(s[i], s[k], x); }
        }
      }
    }
  }

  lemma {:induction false} SortNamesAscends(s: seq<string>)
    requires NoDuplicates(s)
    ensures Ascending(SortNames(s))
    ensures forall y :: y in SortNames(s) <==> y in s
  {
    if s != [] {
      var k := |s| - 1;
      assert s == s[..k] + [s[k]];
      SortNamesAscends(s[..k]);
      InsertNameAscends(s[k], SortNames(s[..k]));
    }
  }

  lemma LastIsGreatest(s: seq<string>)
    requires Ascending(s) && s != []
    ensures forall x :: x in s ==> x == s[|s| - 1] || Less(x, s[|s| - 1])
  {
  }

  /** An ascending list is determined by its members. */
  lemma {:induction false} AscendingUnique(s: seq<string>, t: seq<string>)
    requires Ascending(s) && Ascending(t)
    requires forall x :: x in s <==> x in t
    ensures s == t
  {
    assert t != [] ==> t[0] in t;
    if s != [] {
      assert s[0] in s;
      var m := |s| - 1;
      assert s[m] in t;
      var n := |t| - 1;
      assert t[n] in t && t[n] in s;
      LastIsGreatest(s);
      LastIsGreatest(t);
      LessIsTotal(s[m], t[n]);
      assert s[m] == t[n];
      forall x ensures x in s[..m] <==> x in t[..n] {
        LastOnlyOnce(s, x);
        LastOnlyOnce(t, x);
      }
      AscendingUnique(s[..m], t[..n]);
      assert s == s[..m] + [s[m]] && t == t[..n] + [t[n]];
    }
  }

  lemma LastOnlyOnce(s: seq<string>, x: string)
    requires Ascending(s) && s != []
    ensures x in s[..|s| - 1] <==> x in s && x != s[|s| - 1]
  {
    LessIsTotal(x, x);
    var m := |s| - 1;
    assert s == s[..m] + [s[m]];
    if x in s[..m] {
      var i :| 0 <= i < m && s[i] == x;
      assert Less(s[i], s[m]);
    }
  }

  // ---------- The encoding ----------

  function Names(dimensions: seq<Dimension>): (names: seq<string>)
    ensures |names| == |dimensions|
    ensures forall i :: 0 <= i < |dimensions| ==> names[i] == dimensions[i].name
  {
    seq(|dimensions|, i requires 0 <= i < |dimensions| => dimensions[i].name)
  }

  /** `dimensions[name]`, None when it is missing or undefined. */
  function Lookup(dimensions: seq<Dimension>, name: string): Option<string> {
    if dimensions == [] then None
    else if dimensions[0].name == name then dimensions[0].value
    else Lookup(dimensions[1..], name)
  }

  function IsDefined(dimensions: seq<Dimension>): string -> bool {
    (name: string) => Lookup(dimensions, name).Some?
  }

  /** The names with a defined value, sorted. */
  function DefinedNames(dimensions: seq<Dimension>): seq<string> {
    Filter(IsDefined(dimensions), SortNames(Names(dimensions)))
  }

  function Entry(dimensions: seq<Dimension>, name: string): string {
    name + ":" + Lookup(dimensions, name).GetOr("")
  }

  function Entries(dimensions: seq<Dimension>, names: seq<string>): (entries: seq<string>)
    ensures |entries| == |names|
    ensures forall i :: 0 <= i < |names| ==> entries[i] == Entry(dimensions, names[i])
  {
    seq(|names|, i requires 0 <= i < |names| => Entry(dimensions, names[i]))
  }

  /** `parts.join('|')` */
  function Join(parts: seq<string>): string {
    if parts == [] then "" else if |parts| == 1 then parts[0] else parts[0] + "|" + Join(parts[1..])
  }

  function Encode(ruleId: string, ruleVersion: string, dimensions: seq<Dimension>): string {
    ruleId + "|" + (ruleVersion + "|" + Join(Entries(dimensions, DefinedNames(dimensions))))
  }

  // ---------- Independence of insertion order and undefined entries ----------

  /** The same defined properties, whatever their order and whatever else is undefined. */
  ghost predicate SameDefined(d: seq<Dimension>, e: seq<Dimension>) {
    forall name :: Lookup(d, name) == Lookup(e, name)
  }

  lemma {:induction false} LookupNamed(dimensions: seq<Dimension>, name: string)
    requires Lookup(dimensions, name).Some?
    ensures name in Names(dimensions)
  {
    if dimensions[0].name == name {
      assert Names(dimensions)[0] == name;
    } else {
      LookupNamed(dimensions[1..], name);
      assert Names(dimensions) == [dimensions[0].name] + Names(dimensions[1..]);
    }
  }

  lemma {:induction false} FilterAscends(p: string -> bool, s: seq<string>)
    requires Ascending(s)
    ensures Ascending(Filter(p, s))
  {
    if s != [] {
      var k := |s| - 1;
      FilterAscends(p, s[..k]);
      FilterMembers(p, s[..k]);
      var rest := Filter(p, s[..k]);
      forall i | 0 <= i < |rest| ensures Less(rest[i], s[k]) {
        assert rest[i] in rest;
        var j :| 0 <= j < k && s[..k][j] == rest[i];
      }
    }
  }

  lemma DefinedNamesMeaning(dimensions: seq<Dimension>)
    requires NoDuplicates(Names(dimensions))
    ensures Ascending(DefinedNames(dimensions))
    ensures forall name :: name in DefinedNames(dimensions) <==> Lookup(dimensions, name).Some?
  {
    var sorted := SortNames(Names(dimensions));
    SortNamesAscends(Names(dimensions));
    FilterAscends(IsDefined(dimensions), sorted);
    FilterMembers(IsDefined(dimensions), sorted);
    forall name ensures name in DefinedNames(dimensions) <==> Lookup(dimensions, name).Some? {
      if Lookup(dimensions, name).Some? {
        LookupNamed(dimensions, name);
      }
      assert IsDefined(dimensions)(name) <==> Lookup(dimensions, name).Some?;
    }
  }

  /** The text depends on the defined properties only. */
  lemma EncodeIgnoresOrder(ruleId: string, ruleVersion: string, d: seq<Dimension>, e: seq<Dimension>)
    requires NoDuplicates(Names(d)) && NoDuplicates(Names(e))
    requires SameDefined(d, e)
    ensures Encode(ruleId, ruleVersion, d) == Encode(ruleId, ruleVersion, e)
  {
    DefinedNamesMeaning(d);
    DefinedNamesMeaning(e);
    hide DefinedNames;
    AscendingUnique(DefinedNames(d), DefinedNames(e));
    assert Entries(d, DefinedNames(d)) == Entries(e, DefinedNames(e));
  }

  // ---------- Injectivity ----------

  ghost predicate Separable(parts: seq<string>) {
    forall i :: 0 <= i < |parts| ==> parts[i] != "" && '|' !in parts[i]
  }

  lemma {:induction false} JoinInjective(s: seq<string>, t: seq<string>)
    requires Separable(s) && Separable(t) && Join(s) == Join(t)
    ensures s == t
  {
    JoinSeparates(s);
    JoinSeparates(t);
    if |s| > 1 && |t| > 1 {
      SplitAtFirst('|', s[0], Join(s[1..]), t[0], Join(t[1..]));
      JoinInjective(s[1..], t[1..]);
      assert s == [s[0]] + s[1..] && t == [t[0]] + t[1..];
    }
  }

  lemma JoinSeparates(parts: seq<string>)
    ensures |parts| > 1 ==> Join(parts) == parts[0] + ['|'] + Join(parts[1..]) && '|' in Join(parts)
    ensures |parts| == 1 ==> Join(parts) == parts[0]
  {
    if |parts| > 1 {
      assert Join(parts) == parts[0] + ['|'] + Join(parts[1..]);
      assert Join(parts)[|parts[0]|] == '|';
    }
  }

  /** No separator in names, and no `|` in values. */
  ghost predicate Clean(dimensions: seq<Dimension>) {
    && NoDuplicates(Names(dimensions))
    && forall name :: Lookup(dimensions, name).Some? ==>
         ':' !in name && '|' !in name && '|' !in Lookup(dimensions, name).value
  }

  lemma EntriesSeparable(d: seq<Dimension>, names: seq<string>)
    requires Clean(d) && forall i :: 0 <= i < |names| ==> Lookup(d, names[i]).Some?
    ensures Separable(Entries(d, names))
  {
    forall i | 0 <= i < |names| ensures Entries(d, names)[i] != "" && '|' !in Entries(d, names)[i] {
      assert Lookup(d, names[i]).Some?;
      assert Entries(d, names)[i] == names[i] + ":" + Lookup(d, names[i]).value;
    }
  }

  /**
   * On clean input the text determines the rule, its version and the defined dimensions, so two
   * issues share a key only if they agree on all of them.
   */
  lemma EncodeInjective(
    ruleId: string, ruleVersion: string, d: seq<Dimension>, ruleId': string, ruleVersion': string, d': seq<Dimension>)
    requires '|' !in ruleId && '|' !in ruleVersion && Clean(d)
    requires '|' !in ruleId' && '|' !in ruleVersion' && Clean(d')
    requires Encode(ruleId, ruleVersion, d) == Encode(ruleId', ruleVersion', d')
    ensures ruleId == ruleId' && ruleVersion == ruleVersion' && SameDefined(d, d')
  {
    var names, names' := DefinedNames(d), DefinedNames(d');
    DefinedNamesMeaning(d);
    DefinedNamesMeaning(d');
    var text, text' := Join(Entries(d, names)), Join(Entries(d', names'));
    SplitAtFirst('|', ruleId, ruleVersion + "|" + text, ruleId', ruleVersion' + "|" + text');
    SplitAtFirst('|', ruleVersion, text, ruleVersion', text');
    SameEntries(d, names, d', names');
  }

  lemma SameEntries(d: seq<Dimension>, names: seq<string>, d': seq<Dimension>, names': seq<string>)
    requires Clean(d) && forall name :: name in names <==> Lookup(d, name).Some?
    requires Clean(d') && forall name :: name in names' <==> Lookup(d', name).Some?
    requires Join(Entries(d, names)) == Join(Entries(d', names'))
    ensures SameDefined(d, d')
  {
    forall i | 0 <= i < |names| ensures Lookup(d, names[i]).Some? { assert names[i] in names; }
    forall i | 0 <= i < |names'| ensures Lookup(d', names'[i]).Some? { assert names'[i] in names'; }
    EntriesSeparable(d, names);
    EntriesSeparable(d', names');
    JoinInjective(Entries(d, names), Entries(d', names'));
    forall i | 0 <= i < |names| ensures names[i] == names'[i] && Lookup(d, names[i]) == Lookup(d', names[i]) {
      assert Entry(d, names[i]) == Entry(d', names'[i]);
      SplitAtFirst(':', names[i], Lookup(d, names[i]).value, names'[i], Lookup(d', names'[i]).value);
    }
    assert names == names';
    forall name ensures Lookup(d, name) == Lookup(d', name) {
      assert Lookup(d, name).Some? <==> name in names;
      assert Lookup(d', name).Some? <==> name in names;
      if Lookup(d, name).Some? {
        var i :| 0 <= i < |names| && names[i] == name;
      }
    }
  }

  lemma Reassociate(a: string, x: string, rest: string)
    ensures a + ":" + (x + "|" + rest) == (a + ":" + x) + "|" + rest
  {
  }

  /** The text of dimensions whose defined names are known in order. */
  lemma EncodeNames(ruleId: string, ruleVersion: string, d: seq<Dimension>, names: seq<string>)
    requires NoDuplicates(Names(d)) && Ascending(names)
    requires forall name :: Lookup(d, name).Some? <==> name in names
    ensures Encode(ruleId, ruleVersion, d) == ruleId + "|" + (ruleVersion + "|" + Join(Entries(d, names)))
  {
    DefinedNamesMeaning(d);
    hide DefinedNames;
    AscendingUnique(DefinedNames(d), names);
  }

  /** With `|` and then a later name and `:` in a value, one dimension reads like two. */
  lemma SeparatorInValueCollides(ruleId: string, ruleVersion: string, a: string, x: string, b: string, y: string)
    requires Less(a, b)
    ensures Encode(ruleId, ruleVersion, [Dimension(a, Some(x + "|" + (b + ":" + y)))]) ==
            Encode(ruleId, ruleVersion, [Dimension(a, Some(x)), Dimension(b, Some(y))])
  {
    hide Lookup, Encode;
    var value := x + "|" + (b + ":" + y);
    var one := [Dimension(a, Some(value))];
    var two := [Dimension(a, Some(x)), Dimension(b, Some(y))];
    LessIsTotal(a, b);
    forall name ensures Lookup(one, name) == if name == a then Some(value) else None {
      TwoNames(one, name);
    }
    forall name ensures Lookup(two, name) == if name == a then Some(x) else if name == b then Some(y) else None {
      TwoNames(two, name);
    }
    EncodeNames(ruleId, ruleVersion, one, [a]);
    EncodeNames(ruleId, ruleVersion, two, [a, b]);
    assert Entry(one, a) == a + ":" + value;
    assert Entries(one, [a]) == [Entry(one, a)];
    assert Entries(two, [a, b]) == [a + ":" + x, b + ":" + y];
    assert Entries(two, [a, b])[1..] == [b + ":" + y];
    JoinSeparates(Entries(two, [a, b]));
    Reassociate(a, x, b + ":" + y);
  }

  lemma TwoNames(d: seq<Dimension>, name: string)
    requires 1 <= |d| <= 2
    ensures Lookup(d, name) ==
      if name == d[0].name then d[0].value
      else if |d| == 2 && name == d[1].name then d[1].value
      else None
  {
    if |d| == 2 {
      assert d[1..] == [d[1]] && d[1..][1..] == [];
      assert Lookup(d[1..], name) == if name == d[1].name then d[1].value else None;
    }
  }

  // ---------- Exactly when another issue has the same text ----------

  /** No separator in names; values may hold anything. */
  ghost predicate CleanNames(dimensions: seq<Dimension>) {
    && NoDuplicates(Names(dimensions))
    && forall name :: Lookup(dimensions, name).Some? ==> ':' !in name && '|' !in name
  }

  /** The value of a dimension goes on with what reads like a further one, in order. */
  ghost predicate ReadsOn(d: seq<Dimension>, name: string, x: string, b: string, y: string) {
    && Lookup(d, name) == Some(x + "|" + (b + ":" + y))
    && ':' !in b && '|' !in b && Less(name, b)
  }

  ghost predicate Collides(ruleId: string, ruleVersion: string, d: seq<Dimension>, e: seq<Dimension>) {
    CleanNames(e) && !SameDefined(d, e) && Encode(ruleId, ruleVersion, d) == Encode(ruleId, ruleVersion, e)
  }

  lemma SameTail(prefix: string, a: string, b: string)
    requires prefix + a == prefix + b
    ensures a == b
  {
    assert (prefix + a)[|prefix|..] == a && (prefix + b)[|prefix|..] == b;
  }

  lemma EncodedText(ruleId: string, ruleVersion: string, d: seq<Dimension>, e: seq<Dimension>)
    ensures Encode(ruleId, ruleVersion, d) == Encode(ruleId, ruleVersion, e) <==>
            Join(Entries(d, DefinedNames(d))) == Join(Entries(e, DefinedNames(e)))
  {
    var a, b := Join(Entries(d, DefinedNames(d))), Join(Entries(e, DefinedNames(e)));
    hide Join, DefinedNames;
    if Encode(ruleId, ruleVersion, d) == Encode(ruleId, ruleVersion, e) {
      SameTail(ruleId + "|" + (ruleVersion + "|"), a, b) by {
        assert ruleId + "|" + (ruleVersion + "|" + a) == (ruleId + "|" + (ruleVersion + "|")) + a;
        assert ruleId + "|" + (ruleVersion + "|" + b) == (ruleId + "|" + (ruleVersion + "|")) + b;
      }
    }
  }

  /** What follows the name and the colon of the first entry. */
  function AfterName(d: seq<Dimension>, names: seq<string>): string
    requires names != []
  {
    Lookup(d, names[0]).GetOr("") + if |names| == 1 then "" else "|" + Join(Entries(d, names[1..]))
  }

  lemma TextStarts(d: seq<Dimension>, names: seq<string>)
    requires names != []
    ensures Join(Entries(d, names)) == names[0] + ":" + AfterName(d, names)
  {
    assert Entries(d, names)[1..] == Entries(d, names[1..]);
    assert Entries(d, names)[0] == Entry(d, names[0]);
    if |names| > 1 {
      Reassociate(names[0], Lookup(d, names[0]).GetOr(""), Join(Entries(d, names[1..])));
    } else {
      assert Lookup(d, names[0]).GetOr("") + "" == Lookup(d, names[0]).GetOr("");
    }
  }

  lemma NoEntriesNoText(d: seq<Dimension>, names: seq<string>)
    ensures Join(Entries(d, names)) == "" <==> names == []
  {
    if names != [] {
      TextStarts(d, names);
      hide Join;
      assert Join(Entries(d, names))[|names[0]|] == ':';
    }
  }

  lemma DefinedOnly(d: seq<Dimension>, name: string)
    requires CleanNames(d)
    ensures Lookup(d, name).Some? <==> name in DefinedNames(d)
    ensures Ascending(DefinedNames(d))
  {
    DefinedNamesMeaning(d);
  }

  /** With at most one dimension only a value that reads on can be mistaken. */
  lemma SameTextMeans(ruleId: string, ruleVersion: string, d: seq<Dimension>, e: seq<Dimension>)
    requires CleanNames(d) && |DefinedNames(d)| <= 1 && Collides(ruleId, ruleVersion, d, e)
    ensures exists name, x, b, y :: ReadsOn(d, name, x, b, y)
  {
    EncodedText(ruleId, ruleVersion, d, e);
    hide Encode, DefinedNames, Lookup, Join;
    var names, names' := DefinedNames(d), DefinedNames(e);
    DefinedNamesMeaning(d);
    DefinedNamesMeaning(e);
    NoEntriesNoText(d, names);
    NoEntriesNoText(e, names');
    if names != [] {
      assert names[0] in names && names'[0] in names';
      TextStarts(d, names);
      TextStarts(e, names');
      SplitAtFirst(':', names[0], AfterName(d, names), names'[0], AfterName(e, names'));
      OneName(d, names);
      if |names'| == 1 {
        SameSingle(d, e, names, names');
      } else {
        assert names'[1] in names';
        LongerReadsOn(d, e, names, names');
      }
    }
  }

  lemma LongerReadsOn(d: seq<Dimension>, e: seq<Dimension>, names: seq<string>, names': seq<string>)
    requires |names| == 1 && |names'| > 1 && names[0] == names'[0] && Lookup(d, names[0]).Some?
    requires ':' !in names'[1] && '|' !in names'[1] && Less(names'[0], names'[1])
    requires AfterName(d, names) == AfterName(e, names')
    ensures exists name, x, b, y :: ReadsOn(d, name, x, b, y)
  {
    hide Lookup, Join;
    OneName(d, names);
    TextStarts(e, names'[1..]);
    var x, b, y := Lookup(e, names'[0]).GetOr(""), names'[1], AfterName(e, names'[1..]);
    assert AfterName(e, names') == x + ("|" + (b + ":" + y)) == x + "|" + (b + ":" + y);
    assert ReadsOn(d, names[0], x, b, y);
  }

  lemma OneName(d: seq<Dimension>, names: seq<string>)
    requires |names| == 1 && Lookup(d, names[0]).Some?
    ensures AfterName(d, names) == Lookup(d, names[0]).value
  {
  }

  lemma SameSingle(d: seq<Dimension>, e: seq<Dimension>, names: seq<string>, names': seq<string>)
    requires |names| == |names'| == 1 && names == names'
    requires forall name :: name in names <==> Lookup(d, name).Some?
    requires forall name :: name in names' <==> Lookup(e, name).Some?
    requires AfterName(d, names) == AfterName(e, names')
    ensures SameDefined(d, e)
  {
    hide Lookup;
    assert names[0] in names && names'[0] in names';
    OneName(d, names);
    OneName(e, names');
    forall name ensures Lookup(d, name) == Lookup(e, name) {
      assert name in names <==> name == names[0];
    }
  }

  /** Two or more dimensions read like the first alone, with the rest in its value. */
  lemma MergedCollides(ruleId: string, ruleVersion: string, d: seq<Dimension>)
    requires CleanNames(d) && |DefinedNames(d)| >= 2
    ensures exists e :: Collides(ruleId, ruleVersion, d, e)
  {
    hide Lookup, DefinedNames, Join, Encode, AfterName, SameDefined;
    var names := DefinedNames(d);
    var e := [Dimension(names[0], Some(AfterName(d, names)))];
    DefinedNamesMeaning(d);
    assert names[0] in names && names[1] in names;
    OneDimension(e);
    FewerDimensions(d, e, names[1]);
    EncodeNames(ruleId, ruleVersion, d, names);
    EncodeNames(ruleId, ruleVersion, e, [names[0]]);
    TextStarts(d, names);
    TextStarts(e, [names[0]]);
    OneName(e, [names[0]]);
    assert Collides(ruleId, ruleVersion, d, e);
  }

  lemma OneDimension(e: seq<Dimension>)
    requires |e| == 1 && e[0].value.Some?
    ensures Names(e) == [e[0].name]
    ensures forall name :: Lookup(e, name) == if name == e[0].name then e[0].value else None
  {
    forall name ensures Lookup(e, name) == if name == e[0].name then e[0].value else None {
      TwoNames(e, name);
    }
  }

  lemma FewerDimensions(d: seq<Dimension>, e: seq<Dimension>, name: string)
    requires |e| == 1 && Lookup(d, name).Some? && Less(e[0].name, name)
    ensures !SameDefined(d, e)
  {
    LessIsTotal(name, name);
    TwoNames(e, name);
  }

  /** A single dimension whose value reads on collides with the two it reads like. */
  lemma ReadingOnCollides(
    ruleId: string, ruleVersion: string, d: seq<Dimension>, name: string, x: string, b: string, y: string)
    requires CleanNames(d) && |DefinedNames(d)| == 1 && ReadsOn(d, name, x, b, y)
    ensures exists e :: Collides(ruleId, ruleVersion, d, e)
  {
    hide Lookup, DefinedNames, Encode, SameDefined;
    DefinedNamesMeaning(d);
    LessIsTotal(name, b);
    var one := [Dimension(name, Some(x + "|" + (b + ":" + y)))];
    var two := [Dimension(name, Some(x)), Dimension(b, Some(y))];
    SeparatorInValueCollides(ruleId, ruleVersion, name, x, b, y);
    assert name in DefinedNames(d);
    assert Names(one) == [name] && Names(two) == [name, b];
    SingleDimension(d, one);
    EncodeIgnoresOrder(ruleId, ruleVersion, d, one);
    MoreDimensions(d, two);
    CleanTwo(two);
    assert Collides(ruleId, ruleVersion, d, two);
  }

  lemma SingleDimension(d: seq<Dimension>, one: seq<Dimension>)
    requires CleanNames(d) && |DefinedNames(d)| == 1 && |one| == 1
    requires one[0].value.Some? && Lookup(d, one[0].name) == one[0].value
    ensures SameDefined(d, one)
  {
    hide DefinedNames;
    DefinedNamesMeaning(d);
    assert one[0].name in DefinedNames(d);
    forall n ensures Lookup(d, n) == Lookup(one, n) {
      TwoNames(one, n);
      hide Lookup;
      assert Lookup(d, n).Some? <==> n in DefinedNames(d);
      assert n in DefinedNames(d) <==> n == one[0].name;
    }
  }

  lemma MoreDimensions(d: seq<Dimension>, two: seq<Dimension>)
    requires CleanNames(d) && |DefinedNames(d)| == 1 && |two| == 2
    requires two[0].name != two[1].name && two[1].value.Some? && Lookup(d, two[0].name).Some?
    ensures !SameDefined(d, two)
  {
    hide DefinedNames;
    DefinedNamesMeaning(d);
    TwoNames(two, two[1].name);
    hide Lookup;
    assert two[0].name in DefinedNames(d);
    assert two[1].name !in DefinedNames(d);
  }

  lemma CleanTwo(two: seq<Dimension>)
    requires |two| == 2 && two[0].name != two[1].name
    requires ':' !in two[0].name && '|' !in two[0].name && ':' !in two[1].name && '|' !in two[1].name
    ensures CleanNames(two)
  {
    forall n ensures Lookup(two, n).Some? ==> n == two[0].name || n == two[1].name {
      TwoNames(two, n);
    }
  }

  /**
   * With clean names, an issue shares its text with one of other dimensions if and only if it has
   * two or more dimensions itself, or the value of its only one reads on into a later name.
   */
  lemma CollidesIff(ruleId: string, ruleVersion: string, d: seq<Dimension>)
    requires CleanNames(d)
    ensures (exists e :: Collides(ruleId, ruleVersion, d, e)) <==>
            |DefinedNames(d)| >= 2 || exists name, x, b, y :: ReadsOn(d, name, x, b, y)
  {
    hide Encode, DefinedNames, Collides, Lookup;
    if |DefinedNames(d)| >= 2 {
      MergedCollides(ruleId, ruleVersion, d);
    } else {
      if e :| Collides(ruleId, ruleVersion, d, e) {
        SameTextMeans(ruleId, ruleVersion, d, e);
      }
      if name, x, b, y :| ReadsOn(d, name, x, b, y) {
        DefinedOnly(d, name);
        ReadingOnCollides(ruleId, ruleVersion, d, name, x, b, y);
      }
    }
  }

  // ---------- The order of names ----------

  /** Equal up to a place, and smaller there. */
  predicate SmallerAt(a: string, b: string, k: nat) {
    k < |a| && k < |b| && a[..k] == b[..k] && a[k] < b[k]
  }

  /** One string comes before another if it is a proper prefix, or smaller at the first difference. */
  lemma {:induction false} LessIsLexicographic(a: string, b: string)
    ensures Less(a, b) <==> a < b || exists k: nat :: SmallerAt(a, b, k)
  {
    if a != [] && b != [] {
      if a[0] == b[0] {
        LessIsLexicographic(a[1..], b[1..]);
        SameHead(a, b);
      } else {
        OtherHead(a, b);
      }
    }
  }

  lemma SmallerDeeper(a: string, b: string, k: nat)
    requires a != [] && b != [] && a[0] == b[0]
    ensures SmallerAt(a, b, k + 1) <==> SmallerAt(a[1..], b[1..], k)
    ensures !SmallerAt(a, b, 0)
  {
    if k < |a[1..]| && k < |b[1..]| {
      assert a[..k + 1] == [a[0]] + a[1..][..k] && b[..k + 1] == [b[0]] + b[1..][..k];
      assert a[..k + 1][1..] == a[1..][..k] && b[..k + 1][1..] == b[1..][..k];
    }
  }

  lemma SameHead(a: string, b: string)
    requires a != [] && b != [] && a[0] == b[0]
    ensures a < b <==> a[1..] < b[1..]
    ensures (exists k: nat :: SmallerAt(a, b, k)) <==> exists k: nat :: SmallerAt(a[1..], b[1..], k)
  {
    assert a == [a[0]] + a[1..] && b == [b[0]] + b[1..];
    SmallerDeeper(a, b, 0);
    hide SmallerAt;
    if k: nat :| SmallerAt(a, b, k) {
      SmallerDeeper(a, b, k - 1);
    }
    if k: nat :| SmallerAt(a[1..], b[1..], k) {
      SmallerDeeper(a, b, k);
    }
  }

  lemma OtherHead(a: string, b: string)
    requires a != [] && b != [] && a[0] != b[0]
    ensures !(a < b)
    ensures (exists k: nat :: SmallerAt(a, b, k)) <==> a[0] < b[0]
  {
    assert SmallerAt(a, b, 0) <==> a[0] < b[0] by {
      assert a[..0] == b[..0];
    }
    forall k: nat | k > 0 ensures !SmallerAt(a, b, k) {
      if k <= |a| && k <= |b| {
        assert a[..k][0] == a[0] && b[..k][0] == b[0];
      }
    }
  }
}
