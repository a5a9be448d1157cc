/** Duplicate removal and hierarchy suppression of issues (packages/rules/src/deduplicator.ts). */
module Deduplicator {
  import opened Wrappers
  import opened Sequences
  import opened IssueKey
  import opened RuleTypes

  /**
   * RULE_HIERARCHY as Object.entries lists it: each parent rule with the rules that suppress it. Rules
   * have non-empty ids, so that a suppressing rule that is found counts as one.
   */
  type Hierarchy = seq<(string, seq<string>)>

  const RULE_HIERARCHY: Hierarchy := [("R002", ["R004", "R005"]), ("R003", ["R004", "R005"]), ("R062", ["R061"])]

  /** `hierarchy[ruleId]`, empty when there is none. */
  function Children(hierarchy: Hierarchy, ruleId: string): seq<string> {
    if hierarchy == [] then []
    else if hierarchy[0].0 == ruleId then hierarchy[0].1
    else Children(hierarchy[1..], ruleId)
  }

  // ---------- The inverse hierarchy ----------

  /** The parent once for every mention of `child` in the list. */
  function Mentions(parent: string, children: seq<string>, child: string): seq<string> {
    if children == [] then []
    else
      var k := |children| - 1;
      Mentions(parent, children[..k], child) + if children[k] == child then [parent] else []
  }

  /** The parents that `child` suppresses, in the order of the hierarchy. */
  function Parents(hierarchy: Hierarchy, child: string): seq<string> {
    if hierarchy == [] then []
    else
      var k := |hierarchy| - 1;
      Parents(hierarchy[..k], child) + Mentions(hierarchy[k].0, hierarchy[k].1, child)
  }

  ghost predicate Lists(inverse: map<string, seq<string>>, child: string, parents: seq<string>) {
    (child in inverse <==> parents != []) && (child in inverse ==> inverse[child] == parents)
  }

  method BuildInverseHierarchy(hierarchy: Hierarchy) returns (inverse: map<string, seq<string>>)
    ensures forall child :: Lists(inverse, child, Parents(hierarchy, child))
  {
    inverse := map[];
    assert hierarchy[..0] == [];
    for i := 0 to |hierarchy|
      invariant forall child :: Lists(inverse, child, Parents(hierarchy[..i], child))
    {
      var (parent, children) := hierarchy[i];
      assert hierarchy[..i + 1][..i] == hierarchy[..i];
      assert children[..0] == [];
      assert forall child :: Parents(hierarchy[..i], child) + [] == Parents(hierarchy[..i], child);
      for j := 0 to |children|
        invariant forall child ::
          Lists(inverse, child, Parents(hierarchy[..i], child) + Mentions(parent, children[..j], child))
      {
        var child := children[j];
        assert children[..j + 1][..j] == children[..j];
        ghost var before := inverse;
        if child !in inverse {
          inverse := inverse[child := []];
        }
        inverse := inverse[child := inverse[child] + [parent]];
        forall c
          ensures Lists(inverse, c, Parents(hierarchy[..i], c) + Mentions(parent, children[..j + 1], c))
        {
          assert Lists(before, c, Parents(hierarchy[..i], c) + Mentions(parent, children[..j], c));
        }
      }
      assert children[..|children|] == children;
    }
    assert hierarchy[..|hierarchy|] == hierarchy;
  }

  lemma {:induction false} MentionsMember(parent: string, children: seq<string>, child: string, p: string)
    ensures p in Mentions(parent, children, child) <==> p == parent && child in children
  {
    if children != [] {
      var k := |children| - 1;
      MentionsMember(parent, children[..k], child, p);
      assert children == children[..k] + [children[k]];
    }
  }

  lemma {:induction false} ParentsMember(hierarchy: Hierarchy, child: string, parent: string)
    ensures parent in Parents(hierarchy, child) <==>
      exists i :: 0 <= i < |hierarchy| && hierarchy[i].0 == parent && child in hierarchy[i].1
  {
    if hierarchy != [] {
      var k := |hierarchy| - 1;
      ParentsMember(hierarchy[..k], child, parent);
      MentionsMember(hierarchy[k].0, hierarchy[k].1, child, parent);
      assert forall i :: 0 <= i < k ==> hierarchy[..k][i] == hierarchy[i];
    }
  }

  ghost predicate DistinctParents(hierarchy: Hierarchy) {
    forall i, j :: 0 <= i < j < |hierarchy| ==> hierarchy[i].0 != hierarchy[j].0
  }

  lemma {:induction false} ChildrenMember(hierarchy: Hierarchy, parent: string, child: string)
    requires DistinctParents(hierarchy)
    ensures child in Children(hierarchy, parent) <==>
      exists i :: 0 <= i < |hierarchy| && hierarchy[i].0 == parent && child in hierarchy[i].1
  {
    if hierarchy != [] {
      var rest := hierarchy[1..];
      ChildrenMember(rest, parent, child);
      if hierarchy[0].0 != parent && child in Children(hierarchy, parent) {
        var i :| 0 <= i < |rest| && rest[i].0 == parent && child in rest[i].1;
        assert hierarchy[i + 1] == rest[i];
      }
      forall i | 0 < i < |hierarchy| ensures hierarchy[i] == rest[i - 1] {
      }
    }
  }

  /** The hierarchy and its inverse say the same: child c suppresses parent p. */
  lemma InverseAgrees(hierarchy: Hierarchy, child: string, parent: string)
    requires DistinctParents(hierarchy)
    ensures parent in Parents(hierarchy, child) <==> child in Children(hierarchy, parent)
  {
    ParentsMember(hierarchy, child, parent);
    ChildrenMember(hierarchy, parent, child);
  }

  // ---------- Duplicate removal ----------

  /** `original` is the issue that is dropped, `duplicate` the one that is kept. */
  datatype DuplicateRecord = DuplicateRecord(original: RuleIssue, duplicate: RuleIssue)

  predicate ShouldReplace(existing: RuleIssue, candidate: RuleIssue) {
    if SeverityRank(candidate.severity) > SeverityRank(existing.severity) then true
    else if SeverityRank(candidate.severity) < SeverityRank(existing.severity) then false
    else candidate.confidence > existing.confidence
  }

  predicate SameRank(a: RuleIssue, b: RuleIssue) {
    a.severity == b.severity && a.confidence == b.confidence
  }

  function Keys(issues: seq<RuleIssue>): (keys: seq<string>)
    ensures |keys| == |issues|
    ensures forall i :: 0 <= i < |issues| ==> keys[i] == KeyOf(issues[i])
  {
    seq(|issues|, i requires 0 <= i < |issues| => KeyOf(issues[i]))
  }

  /** What the map holds for a key after all of `issues`. */
  function Best(issues: seq<RuleIssue>, key: string): Option<RuleIssue> {
    if issues == [] then None
    else
      var last := issues[|issues| - 1];
      var earlier := Best(issues[..|issues| - 1], key);
      if KeyOf(last) != key then earlier
      else if earlier.Some? && !ShouldReplace(earlier.value, last) then earlier
      else Some(last)
  }

  lemma {:induction false} BestExists(issues: seq<RuleIssue>, key: string)
    ensures Best(issues, key).Some? <==> key in Keys(issues)
    ensures key in Distinct(Keys(issues)) <==> key in Keys(issues)
    ensures Best(issues, key).Some? ==> KeyOf(Best(issues, key).value) == key && Best(issues, key).value in issues
  {
    DistinctMembers(Keys(issues));
    hide KeyOf, ShouldReplace, Distinct;
    if issues != [] {
      var k := |issues| - 1;
      BestExists(issues[..k], key);
      assert Keys(issues) == Keys(issues[..k]) + [KeyOf(issues[k])];
      assert issues == issues[..k] + [issues[k]];
    }
  }

  function Holder(issues: seq<RuleIssue>, key: string): (issue: RuleIssue)
    requires key in Distinct(Keys(issues))
    ensures Best(issues, key) == Some(issue)
  {
    BestExists(issues, key);
    Best(issues, key).value
  }

  /** `Array.from(seen.values())`: the best issue for each key, in order of first occurrence. */
  function Survivors(issues: seq<RuleIssue>): (survivors: seq<RuleIssue>)
    ensures |survivors| == |Distinct(Keys(issues))|
    ensures forall j :: 0 <= j < |survivors| ==> Best(issues, Distinct(Keys(issues))[j]) == Some(survivors[j])
  {
    var keys := Distinct(Keys(issues));
    assert forall j :: 0 <= j < |keys| ==> keys[j] in keys;
    seq(|keys|, j requires 0 <= j < |keys| => Holder(issues, keys[j]))
  }

  function DuplicateLog(issues: seq<RuleIssue>): seq<DuplicateRecord> {
    if issues == [] then []
    else
      var issue := issues[|issues| - 1];
      var earlier := issues[..|issues| - 1];
      match Best(earlier, KeyOf(issue))
      case None => DuplicateLog(earlier)
      case Some(existing) =>
        DuplicateLog(earlier) +
        [if ShouldReplace(existing, issue) then DuplicateRecord(existing, issue) else DuplicateRecord(issue, existing)]
  }

  ghost predicate MapsToBest(seen: map<string, RuleIssue>, issues: seq<RuleIssue>) {
    forall key :: (key in seen <==> Best(issues, key).Some?) && (key in seen ==> Best(issues, key) == Some(seen[key]))
  }

  /** What one more issue changes: it claims a new key, replaces the holder of its key, or does neither. */
  lemma DuplicateStep(issues: seq<RuleIssue>, i: nat)
    requires i < |issues|
    ensures var (key, before) := (KeyOf(issues[i]), Distinct(Keys(issues[..i])));
      && Distinct(Keys(issues[..i + 1])) == (if Best(issues[..i], key).Some? then before else before + [key])
      && (forall k :: k != key ==> Best(issues[..i + 1], k) == Best(issues[..i], k))
      && Best(issues[..i + 1], key) ==
         (var e := Best(issues[..i], key); if e.Some? && !ShouldReplace(e.value, issues[i]) then e else Some(issues[i]))
  {
    hide KeyOf, ShouldReplace, Distinct, Keys;
    assert issues[..i + 1][..i] == issues[..i];
    BestExists(issues[..i], KeyOf(issues[i]));
    KeysStep(issues, i);
  }

  lemma KeysStep(issues: seq<RuleIssue>, i: nat)
    requires i < |issues|
    ensures var (key, before) := (KeyOf(issues[i]), Distinct(Keys(issues[..i])));
      Distinct(Keys(issues[..i + 1])) == if key in before then before else before + [key]
  {
    hide KeyOf;
    assert Keys(issues[..i + 1])[..i] == Keys(issues[..i]);
  }

  method RemoveDuplicates(issues: seq<RuleIssue>)
    returns (survivors: seq<RuleIssue>, duplicates: seq<DuplicateRecord>)
    ensures survivors == Survivors(issues)
    ensures duplicates == DuplicateLog(issues)
  {
    hide KeyOf, ShouldReplace, Keys, Best, Distinct;
    var order: seq<string>, seen: map<string, RuleIssue> := [], map[];
    duplicates := [];
    NothingSeen(issues);
    for i := 0 to |issues|
      invariant order == Distinct(Keys(issues[..i]))
      invariant MapsToBest(seen, issues[..i])
      invariant duplicates == DuplicateLog(issues[..i])
    {
      var issue := issues[i];
      var key := KeyOf(issue);
      DuplicateStep(issues, i);
      assert issues[..i + 1][..i] == issues[..i];
      if key in seen {
        var existing := seen[key];
        if ShouldReplace(existing, issue) {
          duplicates := duplicates + [DuplicateRecord(existing, issue)];
          seen := seen[key := issue];
        } else {
          duplicates := duplicates + [DuplicateRecord(issue, existing)];
        }
      } else {
        seen := seen[key := issue];
        order := order + [key];
      }
    }
    assert issues[..|issues|] == issues;
    forall j | 0 <= j < |order| ensures order[j] in seen && Best(issues, order[j]) == Some(seen[order[j]]) {
      assert Best(issues, order[j]) == Some(Survivors(issues)[j]);
    }
    survivors := seq(|order|, j requires 0 <= j < |order| && order[j] in seen => seen[order[j]]);
  }

  lemma NothingSeen(issues: seq<RuleIssue>)
    ensures Distinct(Keys(issues[..0])) == [] && MapsToBest(map[], issues[..0]) && DuplicateLog(issues[..0]) == []
  {
  }

  /** The survivor of a key has the highest severity, then confidence, and is the first that has it. */
  lemma {:induction false} BestIsFirstMaximum(issues: seq<RuleIssue>, key: string) returns (w: nat)
    requires key in Keys(issues)
    ensures w < |issues| && Best(issues, key) == Some(issues[w]) && KeyOf(issues[w]) == key
    ensures forall m :: 0 <= m < |issues| && KeyOf(issues[m]) == key ==>
      !ShouldReplace(issues[w], issues[m]) && (m < w ==> ShouldReplace(issues[m], issues[w]))
  {
    hide KeyOf;
    var k := |issues| - 1;
    var earlier := issues[..k];
    assert Keys(issues) == Keys(earlier) + [KeyOf(issues[k])];
    BestExists(earlier, key);
    if Best(earlier, key).None? {
      w := k;
      forall m | 0 <= m < k ensures KeyOf(issues[m]) != key {
        assert Keys(earlier)[m] in Keys(earlier);
      }
    } else {
      w := BestIsFirstMaximum(earlier, key);
      assert forall m :: 0 <= m < k ==> earlier[m] == issues[m];
      if KeyOf(issues[k]) == key && ShouldReplace(issues[w], issues[k]) {
        w := k;
      }
    }
  }

  /** Which rank wins does not depend on the order of the issues. */
  lemma WinnerIgnoresOrder(issues: seq<RuleIssue>, shuffled: seq<RuleIssue>, key: string)
    requires multiset(issues) == multiset(shuffled)
    ensures Best(issues, key).Some? <==> Best(shuffled, key).Some?
    ensures Best(issues, key).Some? ==> SameRank(Best(issues, key).value, Best(shuffled, key).value)
  {
    hide KeyOf;
    BestBeats(issues, shuffled, key);
    BestBeats(shuffled, issues, key);
  }

  lemma BestBeats(issues: seq<RuleIssue>, others: seq<RuleIssue>, key: string)
    requires multiset(issues) == multiset(others)
    ensures Best(others, key).Some? ==>
      Best(issues, key).Some? && !ShouldReplace(Best(issues, key).value, Best(others, key).value)
  {
    hide KeyOf, ShouldReplace;
    BestExists(others, key);
    if Best(others, key).Some? {
      var other := Best(others, key).value;
      assert other in multiset(issues);
      var m :| 0 <= m < |issues| && issues[m] == other;
      assert Keys(issues)[m] in Keys(issues);
      var w := BestIsFirstMaximum(issues, key);
    }
  }

  function Originals(log: seq<DuplicateRecord>): (issues: seq<RuleIssue>)
    ensures |issues| == |log|
    ensures forall i :: 0 <= i < |log| ==> issues[i] == log[i].original
  {
    seq(|log|, i requires 0 <= i < |log| => log[i].original)
  }

  lemma Regroup(before: multiset<RuleIssue>, after: multiset<RuleIssue>, dropped: multiset<RuleIssue>,
                loser: RuleIssue, x: RuleIssue)
    requires after + multiset{loser} == before + multiset{x}
    ensures after + (dropped + multiset{loser}) == (before + dropped) + multiset{x}
  {
    calc {
      after + (dropped + multiset{loser});
      (after + multiset{loser}) + dropped;
      (before + multiset{x}) + dropped;
    }
  }

  /** The issue that the last one makes a loser, if its key is taken. */
  function Loser(issues: seq<RuleIssue>): Option<RuleIssue>
    requires issues != []
  {
    var last := issues[|issues| - 1];
    match Best(issues[..|issues| - 1], KeyOf(last))
    case None => None
    case Some(e) => Some(if ShouldReplace(e, last) then e else last)
  }

  lemma LogStep(issues: seq<RuleIssue>)
    requires issues != []
    ensures var (log, loser) := (Originals(DuplicateLog(issues[..|issues| - 1])), Loser(issues));
      Originals(DuplicateLog(issues)) == if loser.Some? then log + [loser.value] else log
  {
    hide KeyOf, ShouldReplace, Best;
  }

  /** Survivors and the `original` sides of the duplicate records are the input, issue for issue. */
  lemma {:induction false} DuplicatesConserve(issues: seq<RuleIssue>)
    ensures multiset(Survivors(issues)) + multiset(Originals(DuplicateLog(issues))) == multiset(issues)
  {
    hide KeyOf, ShouldReplace, Best, Survivors, DuplicateLog;
    if issues == [] {
      EmptyLog();
    } else {
      var k := |issues| - 1;
      var last, earlier := issues[k], issues[..k];
      DuplicatesConserve(earlier);
      SurvivorsStep(issues);
      LogStep(issues);
      assert issues == earlier + [last];
      var before, after := multiset(Survivors(earlier)), multiset(Survivors(issues));
      if Loser(issues).Some? {
        Regroup(before, after, multiset(Originals(DuplicateLog(earlier))), Loser(issues).value, last);
      }
    }
  }

  lemma EmptyLog()
    ensures Survivors([]) == [] && DuplicateLog([]) == []
  {
  }

  /** How the survivors change with the last issue. */
  lemma SurvivorsStep(issues: seq<RuleIssue>)
    requires issues != []
    ensures var (last, earlier) := (issues[|issues| - 1], issues[..|issues| - 1]);
      var (e, before, after) := (Best(earlier, KeyOf(last)), Survivors(earlier), Survivors(issues));
      if e.None? then after == before + [last]
      else if ShouldReplace(e.value, last) then multiset(after) + multiset{e.value} == multiset(before) + multiset{last}
      else after == before
  {
    hide KeyOf, ShouldReplace, Best, Distinct;
    var k := |issues| - 1;
    assert issues[..k + 1] == issues;
    DuplicateStep(issues, k);
    var last, earlier := issues[k], issues[..k];
    var key, keys := KeyOf(last), Distinct(Keys(earlier));
    BestExists(earlier, key);
    DistinctMembers(Keys(earlier));
    var before, after := Survivors(earlier), Survivors(issues);
    if Best(earlier, key).Some? && ShouldReplace(Best(earlier, key).value, last) {
      var j :| 0 <= j < |keys| && keys[j] == key;
      assert after == before[j := last];
      assert before[j] == Best(earlier, key).value;
    }
  }

  // ---------- Matching entities ----------

  /** `issue.dimensions[name]` */
  function Dim(issue: RuleIssue, name: string): Option<string> {
    Lookup(issue.dimensions, name)
  }

  predicate SameId(a: Option<string>, b: Option<string>) {
    Truthy(a) && Truthy(b) && a == b
  }

  predicate MatchesEntity(a: RuleIssue, b: RuleIssue) {
    var (aStart, bStart) := (Dim(a, "periodStart"), Dim(b, "periodStart"));
    if SameId(a.contractId, b.contractId) then
      if Truthy(aStart) && Truthy(bStart) then aStart == bStart else true
    else if SameId(a.invoiceId, b.invoiceId) then true
    else SameId(a.customerId, b.customerId) && aStart == bStart
  }

  // ---------- The issue index ----------

  datatype IssueIndex = IssueIndex(
    byRule: map<string, seq<RuleIssue>>,
    byContract: map<string, seq<RuleIssue>>,
    byInvoice: map<string, seq<RuleIssue>>,
    byPeriod: map<string, seq<RuleIssue>>)

  /** `const list = m.get(k) || []; list.push(issue); m.set(k, list)` */
  function AddTo(m: map<string, seq<RuleIssue>>, k: string, issue: RuleIssue): map<string, seq<RuleIssue>> {
    m[k := (if k in m then m[k] else []) + [issue]]
  }

  function RuleKey(issue: RuleIssue): Option<string> {
    Some(issue.ruleId)
  }

  function ContractKey(issue: RuleIssue): Option<string> {
    if Truthy(issue.contractId) then issue.contractId else None
  }

  function InvoiceKey(issue: RuleIssue): Option<string> {
    if Truthy(issue.invoiceId) then issue.invoiceId else None
  }

  function PeriodKey(issue: RuleIssue): Option<string> {
    var key := Dim(issue, "periodStart").GetOr("") + "_" + Dim(issue, "periodEnd").GetOr("");
    if key != "_" then Some(key) else None
  }

  function Keyed(keyOf: RuleIssue -> Option<string>, k: string): RuleIssue -> bool {
    (issue: RuleIssue) => keyOf(issue) == Some(k)
  }

  /** The map lists, under each key, the issues with that key in order. */
  ghost predicate IndexedBy(
    m: map<string, seq<RuleIssue>>, issues: seq<RuleIssue>, keyOf: RuleIssue -> Option<string>)
  {
    forall k ::
      && (k in m <==> Filter(Keyed(keyOf, k), issues) != [])
      && (k in m ==> m[k] == Filter(Keyed(keyOf, k), issues))
  }

  lemma IndexStep(m: map<string, seq<RuleIssue>>, issues: seq<RuleIssue>, i: nat, keyOf: RuleIssue -> Option<string>)
    requires i < |issues| && IndexedBy(m, issues[..i], keyOf)
    ensures var m' := if keyOf(issues[i]).Some? then AddTo(m, keyOf(issues[i]).value, issues[i]) else m;
      IndexedBy(m', issues[..i + 1], keyOf)
  {
    var m' := if keyOf(issues[i]).Some? then AddTo(m, keyOf(issues[i]).value, issues[i]) else m;
    forall k
      ensures (k in m' <==> Filter(Keyed(keyOf, k), issues[..i + 1]) != [])
      ensures k in m' ==> m'[k] == Filter(Keyed(keyOf, k), issues[..i + 1])
    {
      FilterTake(Keyed(keyOf, k), issues, i);
    }
  }

  ghost predicate IsIndex(index: IssueIndex, issues: seq<RuleIssue>) {
    && IndexedBy(index.byRule, issues, RuleKey)
    && IndexedBy(index.byContract, issues, ContractKey)
    && IndexedBy(index.byInvoice, issues, InvoiceKey)
    && IndexedBy(index.byPeriod, issues, PeriodKey)
  }

  method BuildIssueIndex(issues: seq<RuleIssue>) returns (index: IssueIndex)
    ensures IsIndex(index, issues)
  {
    var byRule, byContract, byInvoice, byPeriod := map[], map[], map[], map[];
    assert issues[..0] == [];
    for i := 0 to |issues|
      invariant IndexedBy(byRule, issues[..i], RuleKey)
      invariant IndexedBy(byContract, issues[..i], ContractKey)
      invariant IndexedBy(byInvoice, issues[..i], InvoiceKey)
      invariant IndexedBy(byPeriod, issues[..i], PeriodKey)
    {
      var issue := issues[i];
      IndexStep(byRule, issues, i, RuleKey);
      IndexStep(byContract, issues, i, ContractKey);
      IndexStep(byInvoice, issues, i, InvoiceKey);
      IndexStep(byPeriod, issues, i, PeriodKey);
      hide IndexedBy;
      byRule := AddTo(byRule, issue.ruleId, issue);
      if Truthy(issue.contractId) {
        byContract := AddTo(byContract, issue.contractId.value, issue);
      }
      if Truthy(issue.invoiceId) {
        byInvoice := AddTo(byInvoice, issue.invoiceId.value, issue);
      }
      var periodKey := Dim(issue, "periodStart").GetOr("") + "_" + Dim(issue, "periodEnd").GetOr("");
      if periodKey != "_" {
        byPeriod := AddTo(byPeriod, periodKey, issue);
      }
    }
    assert issues[..|issues|] == issues;
    index := IssueIndex(byRule, byContract, byInvoice, byPeriod);
  }

  // ---------- Suppression ----------

  /** Some issue of the rule concerns the same entity. */
  predicate Fires(issue: RuleIssue, ruleId: string, issues: seq<RuleIssue>) {
    exists j :: 0 <= j < |issues| && issues[j].ruleId == ruleId && MatchesEntity(issue, issues[j])
  }

  /** A plain scan: the first of the rules that fires for the issue. */
  function FirstFiring(issue: RuleIssue, rules: seq<string>, issues: seq<RuleIssue>): Option<string> {
    if rules == [] then None
    else if Fires(issue, rules[0], issues) then Some(rules[0])
    else FirstFiring(issue, rules[1..], issues)
  }

  lemma RuleListFires(issue: RuleIssue, ruleId: string, issues: seq<RuleIssue>)
    ensures Fires(issue, ruleId, issues) <==>
      var listed := Filter(Keyed(RuleKey, ruleId), issues);
      exists j :: 0 <= j < |listed| && MatchesEntity(issue, listed[j])
  {
    hide MatchesEntity;
    var listed := Filter(Keyed(RuleKey, ruleId), issues);
    FilterMembers(Keyed(RuleKey, ruleId), issues);
    if j :| 0 <= j < |listed| && MatchesEntity(issue, listed[j]) {
      assert listed[j] in listed;
      assert Keyed(RuleKey, ruleId)(listed[j]);
    }
    if j :| 0 <= j < |issues| && issues[j].ruleId == ruleId && MatchesEntity(issue, issues[j]) {
      assert RuleKey(issues[j]) == Some(ruleId);
      assert Keyed(RuleKey, ruleId)(issues[j]);
      assert issues[j] in listed;
    }
  }

  lemma {:induction false} FirstFiringSkips(issue: RuleIssue, rules: seq<string>, issues: seq<RuleIssue>, i: nat)
    requires i <= |rules| && forall j :: 0 <= j < i ==> !Fires(issue, rules[j], issues)
    ensures FirstFiring(issue, rules, issues) == FirstFiring(issue, rules[i..], issues)
  {
    hide Fires;
    if i == 0 {
      assert rules[0..] == rules;
    } else {
      FirstFiringSkips(issue, rules[1..], issues, i - 1);
      assert rules[1..][i - 1..] == rules[i..];
    }
  }

  /** Through the index, the lookup finds what the plain scan finds. */
  method FindSuppressingRule(issue: RuleIssue, suppressingRules: seq<string>, index: IssueIndex,
                             ghost issues: seq<RuleIssue>)
    returns (found: Option<string>)
    requires IndexedBy(index.byRule, issues, RuleKey)
    ensures found == FirstFiring(issue, suppressingRules, issues)
  {
    hide MatchesEntity, Fires;
    for i := 0 to |suppressingRules|
      invariant forall j :: 0 <= j < i ==> !Fires(issue, suppressingRules[j], issues)
    {
      var ruleId := suppressingRules[i];
      RuleListFires(issue, ruleId, issues);
      if ruleId in index.byRule {
        var ruleIssues := index.byRule[ruleId];
        for c := 0 to |ruleIssues|
          invariant forall j :: 0 <= j < c ==> !MatchesEntity(issue, ruleIssues[j])
        {
          if MatchesEntity(issue, ruleIssues[c]) {
            FirstFiringSkips(issue, suppressingRules, issues, i);
            assert suppressingRules[i..][0] == ruleId;
            return Some(ruleId);
          }
        }
      }
    }
    FirstFiringSkips(issue, suppressingRules, issues, |suppressingRules|);
    return None;
  }

  datatype SuppressedRecord = SuppressedRecord(issue: RuleIssue, suppressedBy: string)

  function SuppressorOf(issue: RuleIssue, all: seq<RuleIssue>, hierarchy: Hierarchy): Option<string> {
    FirstFiring(issue, Children(hierarchy, issue.ruleId), all)
  }

  function NotSuppressed(all: seq<RuleIssue>, hierarchy: Hierarchy): RuleIssue -> bool {
    (issue: RuleIssue) => SuppressorOf(issue, all, hierarchy).None?
  }

  /** The issues of a list that no issue of `all` suppresses. */
  function Kept(issues: seq<RuleIssue>, all: seq<RuleIssue>, hierarchy: Hierarchy): seq<RuleIssue> {
    Filter(NotSuppressed(all, hierarchy), issues)
  }

  function SuppressedLog(issues: seq<RuleIssue>, all: seq<RuleIssue>, hierarchy: Hierarchy): seq<SuppressedRecord> {
    if issues == [] then []
    else
      var k := |issues| - 1;
      var earlier := SuppressedLog(issues[..k], all, hierarchy);
      match SuppressorOf(issues[k], all, hierarchy)
      case Some(rule) => earlier + [SuppressedRecord(issues[k], rule)]
      case None => earlier
  }

  method ApplyHierarchySuppression(issues: seq<RuleIssue>, hierarchy: Hierarchy)
    returns (finalIssues: seq<RuleIssue>, suppressed: seq<SuppressedRecord>)
    ensures finalIssues == Kept(issues, issues, hierarchy)
    ensures suppressed == SuppressedLog(issues, issues, hierarchy)
  {
    hide IndexedBy;
    var index := BuildIssueIndex(issues);
    finalIssues, suppressed := [], [];
    assert issues[..0] == [];
    for i := 0 to |issues|
      invariant finalIssues == Kept(issues[..i], issues, hierarchy)
      invariant suppressed == SuppressedLog(issues[..i], issues, hierarchy)
    {
      var issue := issues[i];
      assert issues[..i + 1][..i] == issues[..i];
      var suppressingRules := Children(hierarchy, issue.ruleId);
      if |suppressingRules| > 0 {
        var suppressedBy := FindSuppressingRule(issue, suppressingRules, index, issues);
        if suppressedBy.Some? {
          suppressed := suppressed + [SuppressedRecord(issue, suppressedBy.value)];
          continue;
        }
      }
      finalIssues := finalIssues + [issue];
    }
    assert issues[..|issues|] == issues;
  }

  datatype DeduplicationResult = DeduplicationResult(
    issues: seq<RuleIssue>, suppressed: seq<SuppressedRecord>, duplicates: seq<DuplicateRecord>)

  function Deduplicated(issues: seq<RuleIssue>, hierarchy: Hierarchy): DeduplicationResult {
    var unique := Survivors(issues);
    DeduplicationResult(Kept(unique, unique, hierarchy), SuppressedLog(unique, unique, hierarchy), DuplicateLog(issues))
  }

  method DeduplicateIssues(issues: seq<RuleIssue>) returns (result: DeduplicationResult)
    ensures result == Deduplicated(issues, RULE_HIERARCHY)
  {
    var uniqueIssues, duplicates := RemoveDuplicates(issues);
    var finalIssues, suppressed := ApplyHierarchySuppression(uniqueIssues, RULE_HIERARCHY);
    result := DeduplicationResult(finalIssues, suppressed, duplicates);
  }

  // ---------- What suppression guarantees ----------

  /** No rule both suppresses and is suppressed. */
  ghost predicate TwoLevels(hierarchy: Hierarchy) {
    forall parent, child :: child in Children(hierarchy, parent) ==> Children(hierarchy, child) == []
  }

  lemma RuleHierarchyHasTwoLevels()
    ensures TwoLevels(RULE_HIERARCHY) && DistinctParents(RULE_HIERARCHY)
  {
    var h := RULE_HIERARCHY;
    forall rule
      ensures Children(h, rule) ==
        if rule == "R002" || rule == "R003" then ["R004", "R005"] else if rule == "R062" then ["R061"] else []
    {
      assert h[1..][0] == h[1] && h[1..][1..][0] == h[2] && h[1..][1..][1..] == [];
      assert Children(h[1..][1..], rule) == if rule == "R062" then ["R061"] else [];
    }
  }

  lemma {:induction false} FirstFiringFires(issue: RuleIssue, rules: seq<string>, issues: seq<RuleIssue>)
    ensures var r := FirstFiring(issue, rules, issues);
      && (r.Some? ==> r.value in rules && Fires(issue, r.value, issues))
      && (r.None? ==> forall rule :: rule in rules ==> !Fires(issue, rule, issues))
  {
    hide Fires;
    if rules != [] {
      FirstFiringFires(issue, rules[1..], issues);
      assert rules == [rules[0]] + rules[1..];
    }
  }

  lemma {:induction false} LogMember(
    issues: seq<RuleIssue>, all: seq<RuleIssue>, hierarchy: Hierarchy, record: SuppressedRecord)
    requires record in SuppressedLog(issues, all, hierarchy)
    ensures record.issue in issues && SuppressorOf(record.issue, all, hierarchy) == Some(record.suppressedBy)
  {
    hide SuppressorOf;
    var k := |issues| - 1;
    assert issues == issues[..k] + [issues[k]];
    if record in SuppressedLog(issues[..k], all, hierarchy) {
      LogMember(issues[..k], all, hierarchy, record);
    }
  }

  /**
   * Every suppressed issue has a suppressor in the output: an issue of the recorded rule, one of
   * those the hierarchy lists for it, that concerns the same entity.
   */
  lemma SuppressorSurvives(issues: seq<RuleIssue>, hierarchy: Hierarchy, record: SuppressedRecord)
    requires TwoLevels(hierarchy)
    requires record in SuppressedLog(issues, issues, hierarchy)
    ensures record.suppressedBy in Children(hierarchy, record.issue.ruleId)
    ensures Fires(record.issue, record.suppressedBy, Kept(issues, issues, hierarchy))
  {
    hide MatchesEntity;
    LogMember(issues, issues, hierarchy, record);
    FirstFiringFires(record.issue, Children(hierarchy, record.issue.ruleId), issues);
    var j :| 0 <= j < |issues| && issues[j].ruleId == record.suppressedBy && MatchesEntity(record.issue, issues[j]);
    FilterMembers(NotSuppressed(issues, hierarchy), issues);
    assert NotSuppressed(issues, hierarchy)(issues[j]);
    assert issues[j] in Kept(issues, issues, hierarchy);
  }

  /** With the engine's own hierarchy this holds of every deduplication result. */
  lemma SuppressedHaveSurvivingSuppressor(issues: seq<RuleIssue>, record: SuppressedRecord)
    requires record in Deduplicated(issues, RULE_HIERARCHY).suppressed
    ensures record.suppressedBy in Children(RULE_HIERARCHY, record.issue.ruleId)
    ensures Fires(record.issue, record.suppressedBy, Deduplicated(issues, RULE_HIERARCHY).issues)
  {
    hide Survivors, SuppressedLog, Kept, Children, TwoLevels;
    RuleHierarchyHasTwoLevels();
    SuppressorSurvives(Survivors(issues), RULE_HIERARCHY, record);
  }

  function SuppressedIssues(log: seq<SuppressedRecord>): (issues: seq<RuleIssue>)
    ensures |issues| == |log|
    ensures forall i :: 0 <= i < |log| ==> issues[i] == log[i].issue
  {
    seq(|log|, i requires 0 <= i < |log| => log[i].issue)
  }

  /** Kept and suppressed issues partition the list. */
  lemma {:induction false} SuppressionPartitions(issues: seq<RuleIssue>, all: seq<RuleIssue>, hierarchy: Hierarchy)
    ensures multiset(Kept(issues, all, hierarchy)) + multiset(SuppressedIssues(SuppressedLog(issues, all, hierarchy)))
            == multiset(issues)
    ensures |Kept(issues, all, hierarchy)| + |SuppressedLog(issues, all, hierarchy)| == |issues|
  {
    hide SuppressorOf;
    if issues != [] {
      var k := |issues| - 1;
      SuppressionPartitions(issues[..k], all, hierarchy);
      assert issues == issues[..k] + [issues[k]];
      var log := SuppressedLog(issues[..k], all, hierarchy);
      if SuppressorOf(issues[k], all, hierarchy).Some? {
        assert SuppressedIssues(SuppressedLog(issues, all, hierarchy)) == SuppressedIssues(log) + [issues[k]];
      }
    }
  }

  lemma SameSize(a: seq<RuleIssue>, b: seq<RuleIssue>)
    requires multiset(a) == multiset(b)
    ensures |a| == |b|
  {
    assert |multiset(a)| == |a| && |multiset(b)| == |b|;
  }

  /** Nothing is lost: every issue is in the output, suppressed, or a recorded duplicate. */
  lemma DeduplicationConserves(issues: seq<RuleIssue>, hierarchy: Hierarchy)
    ensures var r := Deduplicated(issues, hierarchy);
      && multiset(r.issues) + multiset(SuppressedIssues(r.suppressed)) + multiset(Originals(r.duplicates))
         == multiset(issues)
      && |r.issues| + |r.suppressed| + |r.duplicates| == |issues|
  {
    hide Kept, SuppressedLog, DuplicateLog, Survivors;
    DuplicatesConserve(issues);
    SameSize(Survivors(issues) + Originals(DuplicateLog(issues)), issues);
    SuppressionPartitions(Survivors(issues), Survivors(issues), hierarchy);
  }

  // ---------- A second pass changes nothing ----------

  lemma {:induction false} DistinctKeysSurvive(issues: seq<RuleIssue>)
    requires NoDuplicates(Keys(issues))
    ensures DuplicateLog(issues) == [] && Survivors(issues) == issues
  {
    hide KeyOf, ShouldReplace;
    if issues != [] {
      var k := |issues| - 1;
      assert Keys(issues) == Keys(issues[..k]) + [KeyOf(issues[k])];
      DistinctKeysSurvive(issues[..k]);
      BestExists(issues[..k], KeyOf(issues[k]));
      SurvivorsStep(issues);
      assert issues == issues[..k] + [issues[k]];
    }
  }

  lemma SurvivorsDistinct(issues: seq<RuleIssue>)
    ensures NoDuplicates(Keys(Survivors(issues)))
  {
    hide KeyOf;
    DistinctMembers(Keys(issues));
    var s, keys := Survivors(issues), Distinct(Keys(issues));
    forall j | 0 <= j < |s| ensures Keys(s)[j] == keys[j] {
      BestExists(issues, keys[j]);
    }
    assert Keys(s) == keys;
  }

  lemma {:induction false} FilterDistinct(p: RuleIssue -> bool, issues: seq<RuleIssue>)
    requires NoDuplicates(Keys(issues))
    ensures NoDuplicates(Keys(Filter(p, issues)))
  {
    hide KeyOf;
    if issues != [] {
      var k := |issues| - 1;
      assert Keys(issues) == Keys(issues[..k]) + [KeyOf(issues[k])];
      FilterDistinct(p, issues[..k]);
      FilterMembers(p, issues[..k]);
      var rest := Filter(p, issues[..k]);
      forall i | 0 <= i < |rest| ensures KeyOf(rest[i]) != KeyOf(issues[k]) {
        assert rest[i] in rest;
        var j :| 0 <= j < k && issues[..k][j] == rest[i];
        assert Keys(issues)[j] != Keys(issues)[k];
      }
      assert Keys(rest + [issues[k]]) == Keys(rest) + [KeyOf(issues[k])];
    }
  }

  lemma {:induction false} FewerSuppressors(
    issue: RuleIssue, rules: seq<string>, issues: seq<RuleIssue>, subset: seq<RuleIssue>)
    requires forall x :: x in subset ==> x in issues
    requires FirstFiring(issue, rules, issues).None?
    ensures FirstFiring(issue, rules, subset).None?
  {
    hide MatchesEntity;
    FirstFiringFires(issue, rules, issues);
    FirstFiringFires(issue, rules, subset);
    forall rule | rule in rules ensures !Fires(issue, rule, subset) {
      FiresInMore(issue, rule, subset, issues);
    }
  }

  lemma FiresInMore(issue: RuleIssue, rule: string, subset: seq<RuleIssue>, issues: seq<RuleIssue>)
    requires forall x :: x in subset ==> x in issues
    ensures Fires(issue, rule, subset) ==> Fires(issue, rule, issues)
  {
    hide MatchesEntity;
    if Fires(issue, rule, subset) {
      var j :| 0 <= j < |subset| && subset[j].ruleId == rule && MatchesEntity(issue, subset[j]);
      assert subset[j] in issues;
    }
  }

  /** Deduplicating the output again drops nothing and keeps the order. */
  lemma DeduplicationIdempotent(issues: seq<RuleIssue>, hierarchy: Hierarchy)
    ensures var once := Deduplicated(issues, hierarchy).issues;
      Deduplicated(once, hierarchy) == DeduplicationResult(once, [], [])
  {
    hide KeyOf, ShouldReplace, Best, Children, FirstFiring, Survivors, DuplicateLog;
    var unique := Survivors(issues);
    var once := Kept(unique, unique, hierarchy);
    SurvivorsDistinct(issues);
    FilterDistinct(NotSuppressed(unique, hierarchy), unique);
    DistinctKeysSurvive(once);
    FilterMembers(NotSuppressed(unique, hierarchy), unique);
    forall x | x in once ensures NotSuppressed(once, hierarchy)(x) {
      assert NotSuppressed(unique, hierarchy)(x);
      FewerSuppressors(x, Children(hierarchy, x.ruleId), unique, once);
    }
    FilterAll(NotSuppressed(once, hierarchy), once);
    SuppressionPartitions(once, once, hierarchy);
  }

  // ---------- Which issue survives ----------

  /** Less severe, or as severe and of less confidence. */
  predicate RanksBelow(a: RuleIssue, b: RuleIssue) {
    || SeverityRank(a.severity) < SeverityRank(b.severity)
    || (SeverityRank(a.severity) == SeverityRank(b.severity) && a.confidence < b.confidence)
  }

  /**
   * Each survivor stands in the input; no issue with its key ranks above it, and every earlier one
   * ranks below it.
   */
  lemma SurvivorIsBest(issues: seq<RuleIssue>, j: nat) returns (w: nat)
    requires j < |Survivors(issues)|
    ensures w < |issues| && Survivors(issues)[j] == issues[w]
    ensures forall m :: 0 <= m < |issues| && KeyOf(issues[m]) == KeyOf(issues[w]) ==>
      !RanksBelow(issues[w], issues[m]) && (m < w ==> RanksBelow(issues[m], issues[w]))
  {
    var key := Distinct(Keys(issues))[j];
    assert key in Distinct(Keys(issues));
    DistinctMembers(Keys(issues));
    w := BestIsFirstMaximum(issues, key);
    hide KeyOf, Best;
  }

  /** There is a survivor for every key, and no two have the same. */
  lemma OneSurvivorPerKey(issues: seq<RuleIssue>)
    ensures forall i, j :: 0 <= i < j < |Survivors(issues)| ==>
      KeyOf(Survivors(issues)[i]) != KeyOf(Survivors(issues)[j])
    ensures forall m :: 0 <= m < |issues| ==>
      exists j :: 0 <= j < |Survivors(issues)| && KeyOf(Survivors(issues)[j]) == KeyOf(issues[m])
  {
    hide KeyOf, Best, Survivors;
    SurvivorsDistinct(issues);
    forall i, j | 0 <= i < j < |Survivors(issues)|
      ensures KeyOf(Survivors(issues)[i]) != KeyOf(Survivors(issues)[j])
    {
      assert Keys(Survivors(issues))[i] != Keys(Survivors(issues))[j];
    }
    forall m | 0 <= m < |issues|
      ensures exists j :: 0 <= j < |Survivors(issues)| && KeyOf(Survivors(issues)[j]) == KeyOf(issues[m])
    {
      SurvivorOf(issues, m);
    }
  }

  lemma SurvivorOf(issues: seq<RuleIssue>, m: nat)
    requires m < |issues|
    ensures exists j :: 0 <= j < |Survivors(issues)| && KeyOf(Survivors(issues)[j]) == KeyOf(issues[m])
  {
    hide KeyOf;
    var keys := Distinct(Keys(issues));
    DistinctMembers(Keys(issues));
    assert Keys(issues)[m] in Keys(issues);
    var j :| 0 <= j < |keys| && keys[j] == KeyOf(issues[m]);
    BestExists(issues, keys[j]);
    assert KeyOf(Survivors(issues)[j]) == keys[j];
  }

  /** With no `|` in rule ids and versions, issues have one key only for one rule and version. */
  lemma SameKeySameRule(a: RuleIssue, b: RuleIssue)
    requires '|' !in a.ruleId && '|' !in a.ruleVersion && '|' !in b.ruleId && '|' !in b.ruleVersion
    requires Clean(a.dimensions) && Clean(b.dimensions)
    ensures KeyOf(a) == KeyOf(b) <==>
            a.ruleId == b.ruleId && a.ruleVersion == b.ruleVersion && SameDefined(a.dimensions, b.dimensions)
  {
    hide Encode, SameDefined;
    if KeyOf(a) == KeyOf(b) {
      EncodeInjective(a.ruleId, a.ruleVersion, a.dimensions, b.ruleId, b.ruleVersion, b.dimensions);
    }
    if a.ruleId == b.ruleId && a.ruleVersion == b.ruleVersion && SameDefined(a.dimensions, b.dimensions) {
      EncodeIgnoresOrder(a.ruleId, a.ruleVersion, a.dimensions, b.dimensions);
    }
  }

  // ---------- What it means to concern the same entity ----------

  /** Both name the same contract (invoice, customer), and do name one. */
  predicate SameNamed(a: Option<string>, b: Option<string>) {
    match (a, b)
    case (Some(x), Some(y)) => x == y && x != ""
    case _ => false
  }

  /** Both give a period start, and different ones. */
  predicate DifferentStarts(a: Option<string>, b: Option<string>) {
    match (a, b)
    case (Some(x), Some(y)) => x != "" && y != "" && x != y
    case _ => false
  }

  /**
   * Issues about one contract concern the same entity unless they give different period starts; other
   * issues do when they are about one invoice, or about one customer with equal period starts, given
   * or not.
   */
  lemma MatchesEntityIff(a: RuleIssue, b: RuleIssue)
    ensures var (s, t) := (Lookup(a.dimensions, "periodStart"), Lookup(b.dimensions, "periodStart"));
      && (SameNamed(a.contractId, b.contractId) ==> (MatchesEntity(a, b) <==> !DifferentStarts(s, t)))
      && (!SameNamed(a.contractId, b.contractId) ==>
            (MatchesEntity(a, b) <==>
             SameNamed(a.invoiceId, b.invoiceId) || (SameNamed(a.customerId, b.customerId) && s == t)))
  {
    hide Lookup;
  }
}
