/** Severity and confidence of detected issues (packages/rules/src/scorer.ts, config.ts). */
module Scorer {
  import opened Wrappers
  import opened Sequences
  import opened Money
  import opened IssueKey
  import opened RuleTypes

  datatype Thresholds = Thresholds(
    amountVarianceAbs: real,
    highImpactThreshold: real,
    criticalImpactThreshold: real)

  datatype Gating = Gating(
    skipIfContractNotReady: bool,
    confidenceCapIfNotReady: real,
    skipIfUsageStale: bool,
    skipIfCRMStale: bool)

  datatype DetectionConfig = DetectionConfig(
    thresholds: Thresholds,
    gating: Gating,
    enabledRules: Option<seq<string>>,
    disabledRules: Option<seq<string>>)

  datatype Contract = Contract(id: string, arr: Option<real>)

  /** An issue of an earlier snapshot, with the two dimensions that recurrence looks at. */
  datatype PriorIssue = PriorIssue(
    ruleId: string, contractDim: Option<string>, customerDim: Option<string>, resolved: bool)

  datatype ScoringContext = ScoringContext(
    config: DetectionConfig,
    contracts: seq<Contract>,
    priorIssues: Option<seq<PriorIssue>>,
    contractReadiness: map<string, real>)

  // ---------- Impact ----------

  /** `Math.abs(issue.impactAmount || 0)` */
  function AbsImpact(issue: RuleIssue): (r: real)
    ensures r >= 0.0
  {
    Abs(issue.impactAmount.GetOr(0.0))
  }

  function GetSeverityByImpact(impactAmount: real, t: Thresholds): IssueSeverity {
    var absImpact := Abs(impactAmount);
    if absImpact >= t.criticalImpactThreshold then Critical
    else if absImpact >= t.highImpactThreshold then High
    else if absImpact >= t.amountVarianceAbs * 10.0 then Medium
    else Low
  }

  /** The rank that the impact alone asks for; no impact, or an impact of 0, asks for nothing. */
  function ImpactRank(issue: RuleIssue, t: Thresholds): int {
    if AbsImpact(issue) == 0.0 then 0 else SeverityRank(GetSeverityByImpact(AbsImpact(issue), t))
  }

  function GetConfidenceCap(contractReady: bool, config: DetectionConfig): real {
    if !contractReady && !config.gating.skipIfContractNotReady then config.gating.confidenceCapIfNotReady else 1.0
  }

  // ---------- The three escalation checks ----------

  function FindContract(contracts: seq<Contract>, id: string): Option<Contract> {
    if contracts == [] then None
    else if contracts[0].id == id then Some(contracts[0])
    else FindContract(contracts[1..], id)
  }

  function ContractOf(issue: RuleIssue, context: ScoringContext): Option<Contract> {
    if Truthy(issue.contractId) then FindContract(context.contracts, issue.contractId.value) else None
  }

  /** R070: a contract of high value, or an impact of at least 5% of it. */
  predicate ContractValueEscalates(issue: RuleIssue, contract: Contract, t: Thresholds) {
    var arr := contract.arr.GetOr(0.0);
    arr >= t.criticalImpactThreshold * 10.0 ||
    (AbsImpact(issue) != 0.0 && arr > 0.0 && AbsImpact(issue) / arr >= 0.05)
  }

  function MatchesPrior(issue: RuleIssue): PriorIssue -> bool {
    (prior: PriorIssue) =>
      prior.ruleId == issue.ruleId &&
      (prior.contractDim == Lookup(issue.dimensions, "contractId") ||
       prior.customerDim == Lookup(issue.dimensions, "customerId"))
  }

  /** R071: two earlier occurrences, or one that had been resolved. */
  predicate RecurrenceEscalates(issue: RuleIssue, priorIssues: seq<PriorIssue>) {
    var matching := Filter(MatchesPrior(issue), priorIssues);
    |matching| >= 2 || exists i :: 0 <= i < |matching| && matching[i].resolved
  }

  function CategoriesOf(issues: seq<RuleIssue>): set<IssueCategory> {
    if issues == [] then {} else CategoriesOf(issues[..|issues| - 1]) + {issues[|issues| - 1].category}
  }

  function TotalImpact(issues: seq<RuleIssue>): real {
    if issues == [] then 0.0 else TotalImpact(issues[..|issues| - 1]) + AbsImpact(issues[|issues| - 1])
  }

  /** R072: issues of three categories, or a critical combined impact. */
  predicate CorrelationEscalates(relatedIssues: seq<RuleIssue>, t: Thresholds) {
    |CategoriesOf(relatedIssues)| >= 3 || TotalImpact(relatedIssues) >= t.criticalImpactThreshold
  }

  function EscalateSeverity(current: IssueSeverity): IssueSeverity {
    match current
    case Info => Low
    case Low => Medium
    case Medium => High
    case High => Critical
    case Critical => Critical
  }

  // ---------- The score of one issue ----------

  /** How many of the checks escalate the issue. */
  function Escalations(issue: RuleIssue, related: seq<RuleIssue>, context: ScoringContext): (n: int)
    ensures 0 <= n <= 3
  {
    var contract := ContractOf(issue, context);
    (if contract.Some? && ContractValueEscalates(issue, contract.value, context.config.thresholds) then 1 else 0) +
    (if context.priorIssues.Some? && context.priorIssues.value != [] &&
        RecurrenceEscalates(issue, context.priorIssues.value) then 1 else 0) +
    (if |related| > 1 && CorrelationEscalates(related, context.config.thresholds) then 1 else 0)
  }

  /** The greater of the escalated rank, which stops at critical, and the rank of the impact. */
  function ScoredRank(issue: RuleIssue, related: seq<RuleIssue>, context: ScoringContext): int {
    var escalated := SeverityRank(issue.severity) + Escalations(issue, related, context);
    var capped := if escalated > 4 then 4 else escalated;
    var impact := ImpactRank(issue, context.config.thresholds);
    if impact > capped then impact else capped
  }

  /** Capped when the issue's contract is known not to be fully ready. */
  function ScoredConfidence(issue: RuleIssue, context: ScoringContext): real {
    var contract := ContractOf(issue, context);
    if contract.Some? && contract.value.id in context.contractReadiness &&
       context.contractReadiness[contract.value.id] < 1.0
    then Min(issue.confidence, GetConfidenceCap(false, context.config))
    else issue.confidence
  }

  lemma EscalateRank(severity: IssueSeverity)
    ensures var r := SeverityRank(severity); SeverityRank(EscalateSeverity(severity)) == if r < 4 then r + 1 else 4
  {
  }

  method CalculateScore(issue: RuleIssue, relatedIssues: seq<RuleIssue>, context: ScoringContext)
    returns (severity: IssueSeverity, confidence: real)
    ensures SeverityRank(severity) == ScoredRank(issue, relatedIssues, context)
    ensures confidence == ScoredConfidence(issue, context)
  {
    hide ContractValueEscalates, RecurrenceEscalates, CorrelationEscalates, FindContract, SeverityRank;
    var contract :=
      if Truthy(issue.contractId) then FindContract(context.contracts, issue.contractId.value) else None;
    severity := issue.severity;
    confidence := issue.confidence;
    if contract.Some? {
      if ContractValueEscalates(issue, contract.value, context.config.thresholds) {
        EscalateRank(severity);
        severity := EscalateSeverity(severity);
      }
    }
    if context.priorIssues.Some? && |context.priorIssues.value| > 0 {
      if RecurrenceEscalates(issue, context.priorIssues.value) {
        EscalateRank(severity);
        severity := EscalateSeverity(severity);
      }
    }
    if |relatedIssues| > 1 {
      if CorrelationEscalates(relatedIssues, context.config.thresholds) {
        EscalateRank(severity);
        severity := EscalateSeverity(severity);
      }
    }
    if contract.Some? {
      if contract.value.id in context.contractReadiness && context.contractReadiness[contract.value.id] < 1.0 {
        var cap := GetConfidenceCap(false, context.config);
        confidence := Min(confidence, cap);
      }
    }
    if issue.impactAmount.Some? && issue.impactAmount.value != 0.0 {
      var impactSeverity := GetSeverityByImpact(issue.impactAmount.value, context.config.thresholds);
      if SeverityRank(impactSeverity) > SeverityRank(severity) {
        severity := impactSeverity;
      }
    }
  }

  // ---------- The whole batch ----------

  /** `issue.contractId || '_no_contract'` */
  function GroupKey(issue: RuleIssue): string {
    if Truthy(issue.contractId) then issue.contractId.value else "_no_contract"
  }

  function InGroup(key: string): RuleIssue -> bool {
    (issue: RuleIssue) => GroupKey(issue) == key
  }

  /** The issues of the batch about the same contract. */
  function Related(issue: RuleIssue, batch: seq<RuleIssue>): seq<RuleIssue> {
    Filter(InGroup(GroupKey(issue)), batch)
  }

  /** The issue with the score it gets within a batch, all else unchanged. */
  ghost predicate IsScored(scored: RuleIssue, issue: RuleIssue, batch: seq<RuleIssue>, context: ScoringContext) {
    && SeverityRank(scored.severity) == ScoredRank(issue, Related(issue, batch), context)
    && scored == issue.(severity := scored.severity, confidence := ScoredConfidence(issue, context))
  }

  /** Under each key the issues with it, in order, and no key without issues. */
  ghost predicate IsGrouped(groups: map<string, seq<RuleIssue>>, issues: seq<RuleIssue>) {
    forall k ::
      && (k in groups <==> Filter(InGroup(k), issues) != [])
      && (k in groups ==> groups[k] == Filter(InGroup(k), issues))
  }

  lemma GroupedStep(groups: map<string, seq<RuleIssue>>, issues: seq<RuleIssue>, i: nat)
    requires i < |issues| && IsGrouped(groups, issues[..i])
    ensures var key := GroupKey(issues[i]);
      IsGrouped(groups[key := (if key in groups then groups[key] else []) + [issues[i]]], issues[..i + 1])
  {
    hide GroupKey, Filter;
    var key := GroupKey(issues[i]);
    var after := groups[key := (if key in groups then groups[key] else []) + [issues[i]]];
    forall k
      ensures k in after <==> Filter(InGroup(k), issues[..i + 1]) != []
      ensures k in after ==> after[k] == Filter(InGroup(k), issues[..i + 1])
    {
      FilterTake(InGroup(k), issues, i);
    }
  }

  lemma NothingGrouped(issues: seq<RuleIssue>)
    ensures IsGrouped(map[], issues[..0])
  {
  }

  method GroupByContract(issues: seq<RuleIssue>) returns (issuesByContract: map<string, seq<RuleIssue>>)
    ensures IsGrouped(issuesByContract, issues)
  {
    hide GroupKey, IsGrouped;
    issuesByContract := map[];
    NothingGrouped(issues);
    for i := 0 to |issues|
      invariant IsGrouped(issuesByContract, issues[..i])
    {
      GroupedStep(issuesByContract, issues, i);
      var contractId := GroupKey(issues[i]);
      var existing := if contractId in issuesByContract then issuesByContract[contractId] else [];
      issuesByContract := issuesByContract[contractId := existing + [issues[i]]];
    }
    assert issues[..|issues|] == issues;
  }

  lemma RelatedIsGroup(groups: map<string, seq<RuleIssue>>, issues: seq<RuleIssue>, i: nat)
    requires IsGrouped(groups, issues) && i < |issues|
    ensures var key := GroupKey(issues[i]); key in groups && groups[key] == Related(issues[i], issues)
  {
    var issue := issues[i];
    FilterMembers(InGroup(GroupKey(issue)), issues);
    hide GroupKey, Filter;
    assert InGroup(GroupKey(issue))(issue) && issue in Related(issue, issues);
  }

  method ScoreIssues(issues: seq<RuleIssue>, context: ScoringContext) returns (scored: seq<RuleIssue>)
    ensures |scored| == |issues|
    ensures forall i :: 0 <= i < |issues| ==> IsScored(scored[i], issues[i], issues, context)
  {
    hide GroupKey, IsGrouped, Related, ScoredRank, ScoredConfidence;
    var issuesByContract := GroupByContract(issues);
    scored := [];
    for i := 0 to |issues|
      invariant |scored| == i
      invariant forall j :: 0 <= j < i ==> IsScored(scored[j], issues[j], issues, context)
    {
      var issue := issues[i];
      RelatedIsGroup(issuesByContract, issues, i);
      var relatedIssues := issuesByContract[GroupKey(issue)];
      var severity, confidence := CalculateScore(issue, relatedIssues, context);
      scored := scored + [issue.(severity := severity, confidence := confidence)];
    }
  }

  /** Scoring never lowers a severity and never raises a confidence. */
  lemma ScoringDirection(scored: RuleIssue, issue: RuleIssue, batch: seq<RuleIssue>, context: ScoringContext)
    requires IsScored(scored, issue, batch, context)
    ensures SeverityRank(scored.severity) >= SeverityRank(issue.severity)
    ensures SeverityRank(scored.severity) >= ImpactRank(issue, context.config.thresholds)
    ensures scored.confidence <= issue.confidence
  {
    hide Related, Escalations, ImpactRank, ContractOf;
  }

  // ---------- Monotonicity ----------

  /** The same issue with an impact at least as large. */
  ghost predicate AtLeast(more: RuleIssue, issue: RuleIssue) {
    && more == issue.(impactAmount := more.impactAmount)
    && AbsImpact(more) >= AbsImpact(issue)
  }

  /** A list of related issues with as many issues, categories and as much impact, or more. */
  ghost predicate Covers(more: seq<RuleIssue>, related: seq<RuleIssue>) {
    && |more| >= |related|
    && CategoriesOf(more) >= CategoriesOf(related)
    && TotalImpact(more) >= TotalImpact(related)
  }

  lemma ShareOfContract(small: real, large: real, arr: real)
    requires 0.0 <= small <= large && arr > 0.0 && small / arr >= 0.05
    ensures large / arr >= 0.05 && large > 0.0
  {
    assert small / arr * arr == small && large / arr * arr == large;
  }

  lemma ContractValueMonotone(more: RuleIssue, issue: RuleIssue, contract: Contract, t: Thresholds)
    requires AtLeast(more, issue) && ContractValueEscalates(issue, contract, t)
    ensures ContractValueEscalates(more, contract, t)
  {
    hide AbsImpact;
    var arr := contract.arr.GetOr(0.0);
    if arr < t.criticalImpactThreshold * 10.0 {
      ShareOfContract(AbsImpact(issue), AbsImpact(more), arr);
    }
  }

  lemma ImpactRankMonotone(more: RuleIssue, issue: RuleIssue, t: Thresholds)
    requires AtLeast(more, issue)
    ensures ImpactRank(more, t) >= ImpactRank(issue, t)
  {
  }

  lemma SubsetSize(small: set<IssueCategory>, large: set<IssueCategory>)
    requires small <= large
    ensures |small| <= |large|
  {
    var rest := large - small;
    assert large == small + rest && small * rest == {};
  }

  lemma CorrelationMonotone(more: seq<RuleIssue>, related: seq<RuleIssue>, t: Thresholds)
    requires Covers(more, related) && CorrelationEscalates(related, t)
    ensures CorrelationEscalates(more, t)
  {
    hide CategoriesOf, TotalImpact;
    SubsetSize(CategoriesOf(related), CategoriesOf(more));
  }

  /** More impact of its own and more around it never make an issue's score lower. */
  lemma ScoreMonotone(more: RuleIssue, issue: RuleIssue, moreRelated: seq<RuleIssue>, related: seq<RuleIssue>,
                      context: ScoringContext)
    requires AtLeast(more, issue) && Covers(moreRelated, related)
    ensures ScoredRank(more, moreRelated, context) >= ScoredRank(issue, related, context)
  {
    hide ContractValueEscalates, RecurrenceEscalates, CorrelationEscalates, FindContract, SeverityRank, ImpactRank,
      CategoriesOf, TotalImpact;
    var t := context.config.thresholds;
    var contract := ContractOf(issue, context);
    if contract.Some? && ContractValueEscalates(issue, contract.value, t) {
      ContractValueMonotone(more, issue, contract.value, t);
    }
    if context.priorIssues.Some? {
      RecurrenceIgnoresImpact(more, issue, context.priorIssues.value);
    }
    if CorrelationEscalates(related, t) {
      CorrelationMonotone(moreRelated, related, t);
    }
    ImpactRankMonotone(more, issue, t);
  }

  lemma {:induction false} RecurrenceIgnoresImpact(more: RuleIssue, issue: RuleIssue, prior: seq<PriorIssue>)
    requires AtLeast(more, issue)
    ensures Filter(MatchesPrior(more), prior) == Filter(MatchesPrior(issue), prior)
    ensures RecurrenceEscalates(more, prior) == RecurrenceEscalates(issue, prior)
  {
    if prior != [] {
      RecurrenceIgnoresImpact(more, issue, prior[..|prior| - 1]);
    }
  }

  /** The same batch with impacts at least as large. */
  ghost predicate BatchAtLeast(more: seq<RuleIssue>, batch: seq<RuleIssue>) {
    |more| == |batch| && forall i :: 0 <= i < |batch| ==> AtLeast(more[i], batch[i])
  }

  lemma {:induction false} RaisedGroupCovers(more: seq<RuleIssue>, batch: seq<RuleIssue>, key: string)
    requires BatchAtLeast(more, batch)
    ensures Covers(Filter(InGroup(key), more), Filter(InGroup(key), batch))
  {
    hide AbsImpact;
    if batch != [] {
      var k := |batch| - 1;
      RaisedGroupCovers(more[..k], batch[..k], key);
      GroupPush(Filter(InGroup(key), more[..k]), more[k]);
      GroupPush(Filter(InGroup(key), batch[..k]), batch[k]);
    }
  }

  lemma GroupPush(related: seq<RuleIssue>, issue: RuleIssue)
    ensures CategoriesOf(related + [issue]) == CategoriesOf(related) + {issue.category}
    ensures TotalImpact(related + [issue]) == TotalImpact(related) + AbsImpact(issue)
  {
    assert (related + [issue])[..|related|] == related;
  }

  /** Raising the impact of any issues of a batch lowers no issue's scored severity. */
  lemma RaisingImpactIsMonotone(more: seq<RuleIssue>, batch: seq<RuleIssue>, context: ScoringContext, i: nat)
    requires BatchAtLeast(more, batch) && i < |batch|
    ensures ScoredRank(more[i], Related(more[i], more), context) >=
            ScoredRank(batch[i], Related(batch[i], batch), context)
  {
    hide ScoredRank, Covers;
    RaisedGroupCovers(more, batch, GroupKey(batch[i]));
    ScoreMonotone(more[i], batch[i], Related(more[i], more), Related(batch[i], batch), context);
  }

  lemma {:induction false} FilterConcat(p: RuleIssue -> bool, a: seq<RuleIssue>, b: seq<RuleIssue>)
    ensures Filter(p, a + b) == Filter(p, a) + Filter(p, b)
  {
    if b == [] {
      assert a + b == a;
    } else {
      var k := |b| - 1;
      assert (a + b)[..|a + b| - 1] == a + b[..k];
      FilterConcat(p, a, b[..k]);
    }
  }

  lemma {:induction false} InsertCovers(a: seq<RuleIssue>, x: seq<RuleIssue>, b: seq<RuleIssue>)
    ensures Covers(a + x + b, a + b)
  {
    hide AbsImpact;
    if b == [] {
      assert a + x + b == a + x && a + b == a;
      AppendCovers(a, x);
    } else {
      var k := |b| - 1;
      InsertCovers(a, x, b[..k]);
      GroupPush(a + x + b[..k], b[k]);
      GroupPush(a + b[..k], b[k]);
      assert a + x + b == (a + x + b[..k]) + [b[k]];
      assert a + b == (a + b[..k]) + [b[k]];
    }
  }

  lemma {:induction false} AppendCovers(a: seq<RuleIssue>, x: seq<RuleIssue>)
    ensures Covers(a + x, a)
  {
    hide AbsImpact;
    if x == [] {
      assert a + x == a;
    } else {
      var k := |x| - 1;
      AppendCovers(a, x[..k]);
      GroupPush(a + x[..k], x[k]);
      assert a + x == (a + x[..k]) + [x[k]];
    }
  }

  /** Adding an issue anywhere in a batch lowers no other issue's scored severity. */
  lemma AddingIssueIsMonotone(before: seq<RuleIssue>, added: RuleIssue, after: seq<RuleIssue>,
                              issue: RuleIssue, context: ScoringContext)
    ensures ScoredRank(issue, Related(issue, before + [added] + after), context) >=
            ScoredRank(issue, Related(issue, before + after), context)
  {
    hide ScoredRank, Covers, AbsImpact;
    var p := InGroup(GroupKey(issue));
    FilterConcat(p, before + [added], after);
    FilterConcat(p, before, [added]);
    FilterConcat(p, before, after);
    InsertCovers(Filter(p, before), Filter(p, [added]), Filter(p, after));
    ScoreMonotone(issue, issue, Related(issue, before + [added] + after), Related(issue, before + after), context);
  }

  // ---------- What escalates, in terms of the issue, its contract and its history ----------

  function Impact(issue: RuleIssue): real {
    match issue.impactAmount
    case Some(x) => if x >= 0.0 then x else -x
    case None => 0.0
  }

  /** A severity is reached by reaching its threshold, or that of a greater one. */
  lemma ImpactSeverityByThreshold(issue: RuleIssue, t: Thresholds)
    ensures var (a, rank) := (Impact(issue), ImpactRank(issue, t));
      && (a == 0.0 ==> rank == 0)
      && (a != 0.0 ==>
            && rank >= SeverityRank(Low)
            && (rank >= SeverityRank(Medium) <==>
                  a >= 10.0 * t.amountVarianceAbs || a >= t.highImpactThreshold || a >= t.criticalImpactThreshold)
            && (rank >= SeverityRank(High) <==> a >= t.highImpactThreshold || a >= t.criticalImpactThreshold)
            && (rank >= SeverityRank(Critical) <==> a >= t.criticalImpactThreshold))
  {
  }

  /** A contract worth ten critical impacts, or an impact of at least a twentieth of its value. */
  lemma ContractValueEscalatesIff(issue: RuleIssue, contract: Contract, t: Thresholds)
    ensures var arr := contract.arr.GetOr(0.0);
      ContractValueEscalates(issue, contract, t) <==>
        || 10.0 * t.criticalImpactThreshold <= arr
        || (arr > 0.0 && Impact(issue) > 0.0 && arr <= 20.0 * Impact(issue))
  {
    var arr := contract.arr.GetOr(0.0);
    if arr > 0.0 {
      Twentieth(AbsImpact(issue), arr);
    }
  }

  lemma Twentieth(impact: real, arr: real)
    requires arr > 0.0
    ensures impact / arr >= 0.05 <==> arr <= 20.0 * impact
  {
    var quotient := impact / arr;
    assert quotient * arr == impact;
    if quotient >= 0.05 {
      ProductAtLeast(quotient, 0.05, arr);
    } else {
      ProductAtLeast(0.05, quotient, arr);
      assert (0.05 - quotient) * arr > 0.0;
      assert (0.05 - quotient) * arr == 0.05 * arr - quotient * arr;
    }
  }

  lemma ProductAtLeast(a: real, b: real, c: real)
    requires a >= b && c > 0.0
    ensures a * c >= b * c
  {
  }

  /** An earlier issue of the same rule, with the same contract or the same customer, or the same lack of one. */
  predicate Repeats(issue: RuleIssue, prior: PriorIssue) {
    && prior.ruleId == issue.ruleId
    && (prior.contractDim == Lookup(issue.dimensions, "contractId") ||
        prior.customerDim == Lookup(issue.dimensions, "customerId"))
  }

  lemma {:induction false} FilterSize(p: PriorIssue -> bool, s: seq<PriorIssue>)
    ensures |Filter(p, s)| >= 1 <==> exists i :: 0 <= i < |s| && p(s[i])
    ensures |Filter(p, s)| >= 2 <==> exists i, j :: 0 <= i < j < |s| && p(s[i]) && p(s[j])
  {
    if s != [] {
      var k := |s| - 1;
      var front := s[..k];
      FilterSize(p, front);
      assert forall i :: 0 <= i < k ==> front[i] == s[i];
    }
  }

  /** Two earlier issues that the issue repeats, or one that had been resolved. */
  lemma RecurrenceIff(issue: RuleIssue, prior: seq<PriorIssue>)
    ensures RecurrenceEscalates(issue, prior) <==>
      || (exists i, j :: 0 <= i < j < |prior| && Repeats(issue, prior[i]) && Repeats(issue, prior[j]))
      || (exists i :: 0 <= i < |prior| && Repeats(issue, prior[i]) && prior[i].resolved)
  {
    var p := MatchesPrior(issue);
    var matching := Filter(p, prior);
    FilterSize(p, prior);
    FilterMembers(p, prior);
    assert forall x :: p(x) <==> Repeats(issue, x);
    hide Filter, Lookup, Repeats;
    if i :| 0 <= i < |matching| && matching[i].resolved {
      assert matching[i] in matching;
      var j :| 0 <= j < |prior| && prior[j] == matching[i];
    }
    if i :| 0 <= i < |prior| && Repeats(issue, prior[i]) && prior[i].resolved {
      assert prior[i] in matching;
      var j :| 0 <= j < |matching| && matching[j] == prior[i];
    }
  }

  lemma {:induction false} CategoryMember(issues: seq<RuleIssue>, c: IssueCategory)
    ensures c in CategoriesOf(issues) <==> exists i :: 0 <= i < |issues| && issues[i].category == c
  {
    if issues != [] {
      var k := |issues| - 1;
      CategoryMember(issues[..k], c);
      assert forall i :: 0 <= i < k ==> issues[..k][i] == issues[i];
    }
  }

  predicate Different(a: IssueCategory, b: IssueCategory, c: IssueCategory) {
    a != b && b != c && a != c
  }

  lemma PickThree(s: set<IssueCategory>) returns (a: IssueCategory, b: IssueCategory, c: IssueCategory)
    requires |s| >= 3
    ensures a in s && b in s && c in s && Different(a, b, c)
  {
    a :| a in s;
    assert |s - {a}| == |s| - 1;
    b :| b in s - {a};
    assert |s - {a} - {b}| == |s| - 2;
    c :| c in s - {a} - {b};
  }

  lemma ThreeAtLeast(s: set<IssueCategory>, a: IssueCategory, b: IssueCategory, c: IssueCategory)
    requires a in s && b in s && c in s && Different(a, b, c)
    ensures |s| >= 3
  {
    SubsetSize({a, b, c}, s);
  }

  function Impacts(issues: seq<RuleIssue>): (impacts: seq<real>)
    ensures |impacts| == |issues|
    ensures forall i :: 0 <= i < |issues| ==> impacts[i] == Impact(issues[i])
  {
    seq(|issues|, i requires 0 <= i < |issues| => Impact(issues[i]))
  }

  lemma {:induction false} TotalImpactIsSum(issues: seq<RuleIssue>)
    ensures TotalImpact(issues) == Sum(Impacts(issues))
  {
    if issues != [] {
      var k := |issues| - 1;
      TotalImpactIsSum(issues[..k]);
      assert Impacts(issues)[..k] == Impacts(issues[..k]);
    }
  }

  predicate DifferentAt(issues: seq<RuleIssue>, i: nat, j: nat, k: nat) {
    && i < |issues| && j < |issues| && k < |issues|
    && Different(issues[i].category, issues[j].category, issues[k].category)
  }

  ghost predicate ThreeCategories(issues: seq<RuleIssue>) {
    exists i: nat, j: nat, k: nat :: DifferentAt(issues, i, j, k)
  }

  lemma PickIssues(issues: seq<RuleIssue>)
    requires |CategoriesOf(issues)| >= 3
    ensures ThreeCategories(issues)
  {
    hide CategoriesOf, Different;
    var a, b, c := PickThree(CategoriesOf(issues));
    CategoryMember(issues, a);
    CategoryMember(issues, b);
    CategoryMember(issues, c);
    var i: nat :| i < |issues| && issues[i].category == a;
    var j: nat :| j < |issues| && issues[j].category == b;
    var k: nat :| k < |issues| && issues[k].category == c;
    assert DifferentAt(issues, i, j, k);
  }

  lemma CategoriesCounted(issues: seq<RuleIssue>)
    ensures |CategoriesOf(issues)| >= 3 <==> ThreeCategories(issues)
  {
    hide CategoriesOf, Different;
    if |CategoriesOf(issues)| >= 3 {
      PickIssues(issues);
    }
    if i: nat, j: nat, k: nat :| DifferentAt(issues, i, j, k) {
      CategoryMember(issues, issues[i].category);
      CategoryMember(issues, issues[j].category);
      CategoryMember(issues, issues[k].category);
      ThreeAtLeast(CategoriesOf(issues), issues[i].category, issues[j].category, issues[k].category);
    }
  }

  /** Three issues of different categories, or impacts that add up to a critical one. */
  lemma CorrelationIff(related: seq<RuleIssue>, t: Thresholds)
    ensures CorrelationEscalates(related, t) <==>
            ThreeCategories(related) || Sum(Impacts(related)) >= t.criticalImpactThreshold
  {
    TotalImpactIsSum(related);
    CategoriesCounted(related);
    hide CategoriesOf, TotalImpact, Sum, ThreeCategories;
  }

  lemma {:induction false} FindsFirst(contracts: seq<Contract>, id: string)
    ensures match FindContract(contracts, id)
      case Some(c) =>
        exists i :: 0 <= i < |contracts| && contracts[i] == c && c.id == id &&
                    forall j :: 0 <= j < i ==> contracts[j].id != id
      case None => forall i :: 0 <= i < |contracts| ==> contracts[i].id != id
  {
    if contracts != [] && contracts[0].id != id {
      FindsFirst(contracts[1..], id);
      if FindContract(contracts[1..], id).Some? {
        var rest := contracts[1..];
        var i :| 0 <= i < |rest| && rest[i] == FindContract(rest, id).value &&
                 forall j :: 0 <= j < i ==> rest[j].id != id;
        assert contracts[i + 1] == rest[i];
        assert forall j :: 0 < j < i + 1 ==> contracts[j] == rest[j - 1];
      } else {
        assert forall j :: 0 < j < |contracts| ==> contracts[j] == contracts[1..][j - 1];
      }
    }
  }

  /** The contract is one that the issue names, if it names one. */
  lemma ContractOfNames(issue: RuleIssue, context: ScoringContext)
    ensures match ContractOf(issue, context)
      case Some(c) => issue.contractId == Some(c.id) && c.id != "" && c in context.contracts
      case None =>
        issue.contractId.None? || issue.contractId.value == "" ||
        forall i :: 0 <= i < |context.contracts| ==> context.contracts[i].id != issue.contractId.value
  {
    if issue.contractId.Some? {
      FindsFirst(context.contracts, issue.contractId.value);
    }
  }

  /** The confidence is capped exactly for a contract known not to be fully ready: by the configured cap, or by 1. */
  lemma ConfidenceIs(issue: RuleIssue, context: ScoringContext)
    ensures var (c, gating) := (ContractOf(issue, context), context.config.gating);
      var capped := c.Some? && c.value.id in context.contractReadiness && context.contractReadiness[c.value.id] < 1.0;
      var cap := if gating.skipIfContractNotReady then 1.0 else gating.confidenceCapIfNotReady;
      ScoredConfidence(issue, context) ==
        if capped && cap < issue.confidence then cap else issue.confidence
  {
    hide ContractOf;
  }

  /** Related are the issues of the batch that name the same contract, or that name none like it. */
  lemma RelatedAre(issue: RuleIssue, batch: seq<RuleIssue>, other: RuleIssue)
    ensures other in Related(issue, batch) <==>
      && other in batch
      && (if issue.contractId.Some? && issue.contractId.value !in ["", "_no_contract"]
          then other.contractId == issue.contractId
          else other.contractId.None? || other.contractId.value in ["", "_no_contract"])
  {
    FilterMembers(InGroup(GroupKey(issue)), batch);
    assert InGroup(GroupKey(issue))(other) <==> GroupKey(other) == GroupKey(issue);
    hide Filter;
  }
}
