/** The rule registry and its execution order (packages/rules/src/registry.ts). */
module Registry {
  import opened Sequences
  import opened RuleTypes
  import Sorting

  datatype RuleTier =
    | DataQualityTier | BillingTier | DiscountTier | RevRecTier | CreditsTier | UsageTier
    | LifecycleTier | MultiEntityTier | CrossSnapshotTier | TaxFeesTier | FxCurrencyTier

  datatype DataRequirement = Contracts | Invoices | UsageEvents | OtherData(name: string)

  /** A rule without its `run` function, which the runner takes as a parameter. */
  datatype Rule = Rule(
    id: string,
    version: string,
    category: IssueCategory,
    tier: RuleTier,
    priority: int,
    suppressedBy: seq<string>,
    requiresData: seq<DataRequirement>,
    enabled: bool)

  const TIER_ORDER: seq<RuleTier> := [
    DataQualityTier, BillingTier, DiscountTier, RevRecTier, CreditsTier, UsageTier,
    LifecycleTier, MultiEntityTier, CrossSnapshotTier, TaxFeesTier, FxCurrencyTier]

  function TierIndex(tier: RuleTier): (i: nat)
    ensures i < |TIER_ORDER| && TIER_ORDER[i] == tier
  {
    match tier
    case DataQualityTier => 0
    case BillingTier => 1
    case DiscountTier => 2
    case RevRecTier => 3
    case CreditsTier => 4
    case UsageTier => 5
    case LifecycleTier => 6
    case MultiEntityTier => 7
    case CrossSnapshotTier => 8
    case TaxFeesTier => 9
    case FxCurrencyTier => 10
  }

  // ---------- Lists of rules, in registration order ----------

  ghost predicate DistinctIds(rules: seq<Rule>) {
    forall i, j :: 0 <= i < j < |rules| ==> rules[i].id != rules[j].id
  }

  /** Where the rule with an id stands, or the length of the list. */
  function PositionOf(rules: seq<Rule>, id: string): (i: nat)
    ensures i <= |rules|
    ensures i < |rules| ==> rules[i].id == id
    ensures forall j :: 0 <= j < i ==> rules[j].id != id
  {
    if rules == [] then 0 else if rules[0].id == id then 0 else 1 + PositionOf(rules[1..], id)
  }

  /** Map.set: a known id keeps its place and gets the new rule. */
  function Registered(rules: seq<Rule>, rule: Rule): (r: seq<Rule>)
    ensures DistinctIds(rules) ==> DistinctIds(r)
  {
    var i := PositionOf(rules, rule.id);
    if i < |rules| then rules[i := rule] else rules + [rule]
  }

  /** The values of a map in the order of its keys. */
  function ListOf(ids: seq<string>, rules: map<string, Rule>): (s: seq<Rule>)
    requires forall i :: 0 <= i < |ids| ==> ids[i] in rules
    ensures |s| == |ids| && forall i :: 0 <= i < |ids| ==> s[i] == rules[ids[i]]
  {
    seq(|ids|, i requires 0 <= i < |ids| => rules[ids[i]])
  }

  function InTier(tier: RuleTier): Rule -> bool {
    (rule: Rule) => rule.tier == tier
  }

  function Priority(rule: Rule): int {
    rule.priority
  }

  function ByTier(rules: seq<Rule>, tier: RuleTier): seq<Rule> {
    Sorting.StableSort(Filter(InTier(tier), rules), Priority)
  }

  /** The rules of the first n tiers, tier by tier. */
  function TiersUpTo(rules: seq<Rule>, n: nat): seq<Rule>
    requires n <= |TIER_ORDER|
  {
    if n == 0 then [] else TiersUpTo(rules, n - 1) + ByTier(rules, TIER_ORDER[n - 1])
  }

  function InOrder(rules: seq<Rule>): seq<Rule> {
    TiersUpTo(rules, |TIER_ORDER|)
  }

  ghost predicate KeysAndValues(ids: seq<string>, rules: map<string, Rule>) {
    && NoDuplicates(ids)
    && (forall i :: 0 <= i < |ids| ==> ids[i] in rules && rules[ids[i]].id == ids[i])
    && forall id :: id in rules ==> id in ids
  }

  /** The keys of a map after one more Map.set. */
  function KeysAfter(ids: seq<string>, rules: map<string, Rule>, id: string): seq<string> {
    if id in rules then ids else ids + [id]
  }

  lemma SetKeepsKeys(ids: seq<string>, rules: map<string, Rule>, rule: Rule)
    requires KeysAndValues(ids, rules)
    ensures KeysAndValues(KeysAfter(ids, rules, rule.id), rules[rule.id := rule])
  {
    var after := KeysAfter(ids, rules, rule.id);
    if rule.id !in rules {
      assert after[|ids|] == rule.id;
    }
    forall id | id in rules ensures id in after {
      var i :| 0 <= i < |ids| && ids[i] == id;
      assert after[i] == id;
    }
  }

  lemma PositionInMap(ids: seq<string>, rules: map<string, Rule>, id: string)
    requires KeysAndValues(ids, rules)
    ensures var i := PositionOf(ListOf(ids, rules), id);
      if id in rules then i < |ids| && ids[i] == id else i == |ids|
  {
    hide PositionOf;
    if id in rules {
      var i :| 0 <= i < |ids| && ids[i] == id;
      assert ListOf(ids, rules)[i].id == id;
    }
  }

  lemma SetKeepsPlace(ids: seq<string>, rules: map<string, Rule>, rule: Rule)
    requires KeysAndValues(ids, rules)
    ensures var after := KeysAfter(ids, rules, rule.id);
      && KeysAndValues(after, rules[rule.id := rule])
      && ListOf(after, rules[rule.id := rule]) == Registered(ListOf(ids, rules), rule)
  {
    hide PositionOf;
    SetKeepsKeys(ids, rules, rule);
    PositionInMap(ids, rules, rule.id);
  }

  // ---------- The registry object ----------

  class RuleRegistryImpl {
    var ids: seq<string>
    var rules: map<string, Rule>

    /** The map's keys in insertion order, each holding a rule with that id. */
    ghost predicate Valid()
      reads this
    {
      KeysAndValues(ids, rules)
    }

    /** The registered rules in registration order. */
    ghost function Contents(): (s: seq<Rule>)
      requires Valid()
      reads this
      ensures DistinctIds(s)
    {
      ListOf(ids, rules)
    }

    constructor ()
      ensures Valid() && Contents() == []
    {
      ids, rules := [], map[];
    }

    method Register(rule: Rule)
      requires Valid()
      modifies this
      ensures Valid() && Contents() == Registered(old(Contents()), rule)
    {
      SetKeepsPlace(ids, rules, rule);
      if rule.id !in rules {
        ids := ids + [rule.id];
      }
      rules := rules[rule.id := rule];
    }

    method RegisterAll(newRules: seq<Rule>)
      requires Valid()
      modifies this
      ensures Valid() && Contents() == AllRegistered(old(Contents()), newRules)
    {
      ghost var before := Contents();
      assert newRules[..0] == [];
      for i := 0 to |newRules|
        invariant Valid() && Contents() == AllRegistered(before, newRules[..i])
      {
        assert newRules[..i + 1][..i] == newRules[..i];
        Register(newRules[i]);
      }
      assert newRules[..|newRules|] == newRules;
    }

    method GetByTier(tier: RuleTier) returns (result: seq<Rule>)
      requires Valid()
      ensures result == ByTier(Contents(), tier)
    {
      result := [];
      assert Contents()[..0] == [];
      for i := 0 to |ids|
        invariant result == Filter(InTier(tier), Contents()[..i])
      {
        assert ids[i] in ids;
        FilterTake(InTier(tier), Contents(), i);
        var rule := rules[ids[i]];
        if rule.tier == tier {
          result := result + [rule];
        }
      }
      assert Contents()[..|ids|] == Contents();
      result := Sorting.StableSort(result, Priority);
    }

    method GetInOrder() returns (allRules: seq<Rule>)
      requires Valid()
      ensures allRules == InOrder(Contents())
    {
      allRules := [];
      for i := 0 to |TIER_ORDER|
        invariant allRules == TiersUpTo(Contents(), i)
      {
        var tierRules := GetByTier(TIER_ORDER[i]);
        allRules := allRules + tierRules;
      }
    }
  }

  function AllRegistered(rules: seq<Rule>, newRules: seq<Rule>): seq<Rule> {
    if newRules == [] then rules
    else Registered(AllRegistered(rules, newRules[..|newRules| - 1]), newRules[|newRules| - 1])
  }

  // ---------- Execution order ----------

  /** By tier, then priority, then registration. */
  ghost predicate Precedes(a: Rule, b: Rule, rules: seq<Rule>) {
    || TierIndex(a.tier) < TierIndex(b.tier)
    || (a.tier == b.tier && a.priority < b.priority)
    || (a.tier == b.tier && a.priority == b.priority && PositionOf(rules, a.id) < PositionOf(rules, b.id))
  }

  ghost predicate Ordered(list: seq<Rule>, rules: seq<Rule>) {
    forall i, j :: 0 <= i < j < |list| ==> Precedes(list[i], list[j], rules)
  }

  function Standing(rules: seq<Rule>): Rule -> int {
    (rule: Rule) => PositionOf(rules, rule.id)
  }

  lemma TierOrdered(rules: seq<Rule>, tier: RuleTier)
    requires DistinctIds(rules)
    ensures Ordered(ByTier(rules, tier), rules)
    ensures forall rule :: rule in ByTier(rules, tier) <==> rule in rules && rule.tier == tier
  {
    var filtered := Filter(InTier(tier), rules);
    forall i, j | 0 <= i < j < |rules| ensures Standing(rules)(rules[i]) < Standing(rules)(rules[j]) {
      assert PositionOf(rules, rules[i].id) == i && PositionOf(rules, rules[j].id) == j;
    }
    FilterKeepsOrder(InTier(tier), rules, Standing(rules));
    FilterMembers(InTier(tier), rules);
    Sorting.SortStable(filtered, Priority, Standing(rules));
    Sorting.SortContents(filtered, Priority);
    var list := ByTier(rules, tier);
    hide PositionOf, ByTier;
    forall rule | rule in list ensures rule.tier == tier {
      assert rule in filtered;
      assert InTier(tier)(rule);
    }
    forall i, j | 0 <= i < j < |list| ensures Precedes(list[i], list[j], rules) {
      assert Sorting.Before(list[i], list[j], Priority, Standing(rules));
      assert list[i] in list && list[j] in list;
    }
  }

  lemma {:induction false} TiersOrdered(rules: seq<Rule>, n: nat)
    requires DistinctIds(rules) && n <= |TIER_ORDER|
    ensures Ordered(TiersUpTo(rules, n), rules)
    ensures forall rule :: rule in TiersUpTo(rules, n) <==> rule in rules && TierIndex(rule.tier) < n
  {
    hide PositionOf, ByTier;
    if n > 0 {
      TiersOrdered(rules, n - 1);
      TierOrdered(rules, TIER_ORDER[n - 1]);
      var earlier, last := TiersUpTo(rules, n - 1), ByTier(rules, TIER_ORDER[n - 1]);
      TierAt(n - 1);
      forall i, j | 0 <= i < |earlier| && 0 <= j < |last| ensures Precedes(earlier[i], last[j], rules) {
        assert earlier[i] in earlier && last[j] in last;
      }
    }
  }

  lemma TierAt(n: nat)
    requires n < |TIER_ORDER|
    ensures forall tier :: TierIndex(tier) == n <==> tier == TIER_ORDER[n]
  {
  }

  lemma {:induction false} SplitByTier(rules: seq<Rule>, n: nat)
    requires n < |TIER_ORDER|
    ensures multiset(Filter(BelowTier(n + 1), rules)) ==
            multiset(Filter(BelowTier(n), rules)) + multiset(Filter(InTier(TIER_ORDER[n]), rules))
  {
    TierAt(n);
    if rules != [] {
      SplitByTier(rules[..|rules| - 1], n);
    }
  }

  function BelowTier(n: nat): Rule -> bool {
    (rule: Rule) => TierIndex(rule.tier) < n
  }

  lemma AppendContents(a: seq<Rule>, b: seq<Rule>, a': seq<Rule>, b': seq<Rule>, whole: seq<Rule>)
    requires multiset(a) == multiset(a') && multiset(b) == multiset(b')
    requires multiset(whole) == multiset(a') + multiset(b')
    ensures multiset(a + b) == multiset(whole)
  {
  }

  lemma {:induction false} TiersContents(rules: seq<Rule>, n: nat)
    requires n <= |TIER_ORDER|
    ensures multiset(TiersUpTo(rules, n)) == multiset(Filter(BelowTier(n), rules))
  {
    hide TierIndex, Filter, ByTier, BelowTier, InTier;
    if n == 0 {
      NothingBelow(rules);
    } else {
      TiersContents(rules, n - 1);
      SplitByTier(rules, n - 1);
      ByTierContents(rules, TIER_ORDER[n - 1]);
      AppendContents(TiersUpTo(rules, n - 1), ByTier(rules, TIER_ORDER[n - 1]),
                     Filter(BelowTier(n - 1), rules), Filter(InTier(TIER_ORDER[n - 1]), rules),
                     Filter(BelowTier(n), rules));
    }
  }

  lemma ByTierContents(rules: seq<Rule>, tier: RuleTier)
    ensures multiset(ByTier(rules, tier)) == multiset(Filter(InTier(tier), rules))
  {
    Sorting.SortContents(Filter(InTier(tier), rules), Priority);
  }

  lemma {:induction false} NothingBelow(rules: seq<Rule>)
    ensures Filter(BelowTier(0), rules) == []
  {
    if rules != [] {
      NothingBelow(rules[..|rules| - 1]);
    }
  }

  /**
   * Every registered rule is in the execution order, once, and the order is by tier, then
   * priority, then registration.
   */
  lemma ExecutionOrder(rules: seq<Rule>)
    requires DistinctIds(rules)
    ensures multiset(InOrder(rules)) == multiset(rules)
    ensures Ordered(InOrder(rules), rules)
  {
    hide TiersUpTo, PositionOf;
    TiersOrdered(rules, |TIER_ORDER|);
    TiersContents(rules, |TIER_ORDER|);
    forall rule | rule in rules ensures BelowTier(|TIER_ORDER|)(rule) {
    }
    FilterAll(BelowTier(|TIER_ORDER|), rules);
  }
}
