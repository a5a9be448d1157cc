/** Running the rules of a registry over a snapshot (packages/rules/src/runner.ts). */
module Runner {
  import opened Wrappers
  import opened Sequences
  import opened RuleTypes
  import opened Registry
  import opened Scorer
  import Deduplicator

  /** What `rule.run` returns or throws. */
  datatype Outcome = Found(issues: seq<RuleIssue>) | Thrown(message: string)

  /** A rule's `run`, given the issues found so far in the run. */
  type RunFunction = (Rule, seq<RuleIssue>) -> Outcome

  datatype RunnerOptions = RunnerOptions(
    ruleIds: Option<seq<string>>,
    skipRuleIds: Option<seq<string>>,
    stopOnError: bool,
    maxIssuesPerRule: Option<int>)

  datatype RunContext = RunContext(
    scoring: ScoringContext,
    usageDataStale: bool,
    crmDataStale: bool,
    options: RunnerOptions,
    run: RunFunction)

  datatype SkipReason = Disabled | UsageStale | CrmStale | SuppressedBy(rules: seq<string>)

  datatype RuleStatus = Executed | Skipped(reason: SkipReason) | Errored(message: string)

  datatype RuleRunResult = RuleRunResult(ruleId: string, ruleVersion: string, issueCount: nat, status: RuleStatus)

  datatype RunStatus = Completed | Failed(ruleId: string, message: string)

  datatype DetectionRunResult = DetectionRunResult(
    status: RunStatus,
    issuesTotal: nat,
    issuesBySeverity: map<IssueSeverity, nat>,
    issuesByCategory: map<IssueCategory, nat>,
    ruleResults: seq<RuleRunResult>,
    issues: seq<RuleIssue>)

  // ---------- Decisions about one rule ----------

  predicate IsRuleEnabled(ruleId: string, config: DetectionConfig, defaultEnabled: bool) {
    if config.enabledRules.Some? && |config.enabledRules.value| > 0 then ruleId in config.enabledRules.value
    else if config.disabledRules.Some? && ruleId in config.disabledRules.value then false
    else defaultEnabled
  }

  function CheckGating(rule: Rule, context: RunContext): Option<SkipReason> {
    var gating := context.scoring.config.gating;
    if UsageEvents in rule.requiresData && gating.skipIfUsageStale && context.usageDataStale then Some(UsageStale)
    else if Contracts in rule.requiresData && gating.skipIfCRMStale && context.crmDataStale then Some(CrmStale)
    else None
  }

  function HasFired(fired: set<string>): string -> bool {
    (id: string) => id in fired
  }

  /** Why the rule is skipped, if it is. */
  function SkipReasonFor(rule: Rule, fired: set<string>, context: RunContext): Option<SkipReason> {
    if !IsRuleEnabled(rule.id, context.scoring.config, rule.enabled) then Some(Disabled)
    else
      var gating := CheckGating(rule, context);
      if gating.Some? then gating
      else
        var suppressing := Filter(HasFired(fired), rule.suppressedBy);
        if |suppressing| > 0 then Some(SuppressedBy(suppressing)) else None
  }

  /** `issues.slice(0, end)`; a negative end counts from the back. */
  function SliceTo(issues: seq<RuleIssue>, end: int): (r: seq<RuleIssue>)
    ensures r <= issues
  {
    var stop := if end >= 0 then end else |issues| + end;
    if stop <= 0 then [] else if stop >= |issues| then issues else issues[..stop]
  }

  function Limited(issues: seq<RuleIssue>, max: Option<int>): seq<RuleIssue> {
    if max.Some? && max.value != 0 && |issues| > max.value then SliceTo(issues, max.value) else issues
  }

  // ---------- The run as a fold over the rules ----------

  datatype RunState = RunState(issues: seq<RuleIssue>, fired: set<string>, results: seq<RuleRunResult>)

  function Start(): RunState {
    RunState([], {}, [])
  }

  /** The result entry of one rule and the issues it adds. */
  datatype RuleRun = RuleRun(result: RuleRunResult, issues: seq<RuleIssue>)

  function RunRule(rule: Rule, state: RunState, context: RunContext): (r: RuleRun)
    ensures r.result.ruleId == rule.id && r.result.ruleVersion == rule.version
    ensures r.result.issueCount == |r.issues|
    ensures !r.result.status.Executed? ==> r.issues == []
  {
    match SkipReasonFor(rule, state.fired, context)
    case Some(reason) => RuleRun(RuleRunResult(rule.id, rule.version, 0, Skipped(reason)), [])
    case None =>
      match context.run(rule, state.issues)
      case Thrown(message) => RuleRun(RuleRunResult(rule.id, rule.version, 0, Errored(message)), [])
      case Found(found) =>
        var issues := Limited(found, context.options.maxIssuesPerRule);
        RuleRun(RuleRunResult(rule.id, rule.version, |issues|, Executed), issues)
  }

  function Step(state: RunState, rule: Rule, context: RunContext): RunState {
    var r := RunRule(rule, state, context);
    RunState(
      state.issues + r.issues,
      if |r.issues| > 0 then state.fired + {rule.id} else state.fired,
      state.results + [r.result])
  }

  function RunAll(rules: seq<Rule>, context: RunContext): RunState {
    if rules == [] then Start() else Step(RunAll(rules[..|rules| - 1], context), rules[|rules| - 1], context)
  }

  function IsListed(ids: seq<string>): Rule -> bool {
    (rule: Rule) => rule.id in ids
  }

  function IsNotListed(ids: seq<string>): Rule -> bool {
    (rule: Rule) => rule.id !in ids
  }

  /** The rules to run: those asked for, if any are, without those to skip. */
  function Selected(rules: seq<Rule>, options: RunnerOptions): seq<Rule> {
    var asked :=
      if options.ruleIds.Some? && |options.ruleIds.value| > 0 then Filter(IsListed(options.ruleIds.value), rules)
      else rules;
    if options.skipRuleIds.Some? && |options.skipRuleIds.value| > 0
    then Filter(IsNotListed(options.skipRuleIds.value), asked) else asked
  }

  ghost predicate HasError(state: RunState) {
    exists i :: 0 <= i < |state.results| && state.results[i].status.Errored?
  }

  // ---------- Counting ----------

  function CountSeverity(issues: seq<RuleIssue>, severity: IssueSeverity): nat {
    if issues == [] then 0
    else CountSeverity(issues[..|issues| - 1], severity) + if issues[|issues| - 1].severity == severity then 1 else 0
  }

  function CountCategory(issues: seq<RuleIssue>, category: IssueCategory): nat {
    if issues == [] then 0
    else CountCategory(issues[..|issues| - 1], category) + if issues[|issues| - 1].category == category then 1 else 0
  }

  method CountBySeverity(issues: seq<RuleIssue>) returns (counts: map<IssueSeverity, nat>)
    ensures forall s :: s in counts && counts[s] == CountSeverity(issues, s)
  {
    counts := map[Info := 0, Low := 0, Medium := 0, High := 0, Critical := 0];
    forall s ensures s in counts && counts[s] == CountSeverity(issues[..0], s) {
      match s case Info => case Low => case Medium => case High => case Critical =>
    }
    for i := 0 to |issues|
      invariant forall s :: s in counts && counts[s] == CountSeverity(issues[..i], s)
    {
      var severity := issues[i].severity;
      assert issues[..i + 1][..i] == issues[..i];
      counts := counts[severity := counts[severity] + 1];
    }
    assert issues[..|issues|] == issues;
  }

  method CountByCategory(issues: seq<RuleIssue>) returns (counts: map<IssueCategory, nat>)
    ensures forall c :: c in counts <==> CountCategory(issues, c) > 0
    ensures forall c :: c in counts ==> counts[c] == CountCategory(issues, c)
  {
    counts := map[];
    assert issues[..0] == [];
    for i := 0 to |issues|
      invariant forall c :: c in counts <==> CountCategory(issues[..i], c) > 0
      invariant forall c :: c in counts ==> counts[c] == CountCategory(issues[..i], c)
    {
      var category := issues[i].category;
      assert issues[..i + 1][..i] == issues[..i];
      counts := counts[category := (if category in counts then counts[category] else 0) + 1];
    }
    assert issues[..|issues|] == issues;
  }

  lemma {:induction false} SeveritiesAddUp(issues: seq<RuleIssue>)
    ensures CountSeverity(issues, Info) + CountSeverity(issues, Low) + CountSeverity(issues, Medium) +
            CountSeverity(issues, High) + CountSeverity(issues, Critical) == |issues|
  {
    if issues != [] {
      SeveritiesAddUp(issues[..|issues| - 1]);
    }
  }

  lemma {:induction false} CategoriesAddUp(issues: seq<RuleIssue>)
    ensures CountCategory(issues, DataQuality) + CountCategory(issues, Billing) + CountCategory(issues, Discount) +
            CountCategory(issues, RevRec) + CountCategory(issues, Credits) + CountCategory(issues, UsageCategory) +
            CountCategory(issues, Lifecycle) + CountCategory(issues, MultiEntity) +
            CountCategory(issues, CrossSnapshot) + CountCategory(issues, TaxFees) + CountCategory(issues, FxCurrency)
            == |issues|
  {
    if issues != [] {
      CategoriesAddUp(issues[..|issues| - 1]);
    }
  }

  function CountIn(counts: map<IssueCategory, nat>, category: IssueCategory): nat {
    if category in counts then counts[category] else 0
  }

  /** The sum of all category counts. */
  function CategoryTotal(n: map<IssueCategory, nat>): nat {
    CountIn(n, DataQuality) + CountIn(n, Billing) + CountIn(n, Discount) + CountIn(n, RevRec) + CountIn(n, Credits) +
    CountIn(n, UsageCategory) + CountIn(n, Lifecycle) + CountIn(n, MultiEntity) + CountIn(n, CrossSnapshot) +
    CountIn(n, TaxFees) + CountIn(n, FxCurrency)
  }

  /** The sum of all severity counts. */
  function SeverityTotal(n: map<IssueSeverity, nat>): nat
    requires forall s :: s in n
  {
    n[Info] + n[Low] + n[Medium] + n[High] + n[Critical]
  }

  // ---------- The run ----------

  /** The counts of a result are those of its issues. */
  ghost predicate Counted(result: DetectionRunResult) {
    && result.issuesTotal == |result.issues|
    && (forall s :: s in result.issuesBySeverity && result.issuesBySeverity[s] == CountSeverity(result.issues, s))
    && (forall c :: c in result.issuesByCategory <==> CountCategory(result.issues, c) > 0)
    && (forall c :: c in result.issuesByCategory ==> result.issuesByCategory[c] == CountCategory(result.issues, c))
  }

  /** These are the results and issues of the first k rules, of which the last threw, and only it. */
  ghost predicate StoppedAt(
    k: nat, ruleResults: seq<RuleRunResult>, issues: seq<RuleIssue>, status: RunStatus, rules: seq<Rule>,
    context: RunContext)
  {
    && 0 < k <= |rules|
    && !HasError(RunAll(rules[..k - 1], context))
    && ruleResults == RunAll(rules[..k], context).results
    && issues == RunAll(rules[..k], context).issues
    && |ruleResults| == k
    && ruleResults[k - 1].status.Errored?
    && status == Failed(rules[k - 1].id, ruleResults[k - 1].status.message)
  }

  /** The rules ran up to and including the first that threw. */
  ghost predicate StoppedAtFirstError(result: DetectionRunResult, rules: seq<Rule>, context: RunContext) {
    exists k :: StoppedAt(k, result.ruleResults, result.issues, result.status, rules, context)
  }

  /** All rules ran, and the deduplicated issues were scored. */
  ghost predicate RanToCompletion(result: DetectionRunResult, rules: seq<Rule>, context: RunContext) {
    var state := RunAll(rules, context);
    var deduplicated := Deduplicator.Deduplicated(state.issues, Deduplicator.RULE_HIERARCHY).issues;
    && result.status == Completed
    && result.ruleResults == state.results
    && |result.issues| == |deduplicated|
    && forall i :: 0 <= i < |deduplicated| ==>
         IsScored(result.issues[i], deduplicated[i], deduplicated, context.scoring)
  }

  method RunDetection(registry: RuleRegistryImpl, context: RunContext) returns (result: DetectionRunResult)
    requires registry.Valid()
    ensures Counted(result)
    ensures var rules := Selected(InOrder(registry.Contents()), context.options);
      if context.options.stopOnError && HasError(RunAll(rules, context))
      then StoppedAtFirstError(result, rules, context)
      else RanToCompletion(result, rules, context)
  {
    hide IsScored, InOrder, CountSeverity, CountCategory, HasError, RunAll, StoppedAt, Selected, Related;
    var rulesToRun := SelectRules(registry, context.options);
    var ruleResults, allIssues, failure := ExecuteRules(rulesToRun, context);
    if failure.Some? {
      var bySeverity := CountBySeverity(allIssues);
      var byCategory := CountByCategory(allIssues);
      return DetectionRunResult(failure.value, |allIssues|, bySeverity, byCategory, ruleResults, allIssues);
    }
    var deduplicationResult := Deduplicator.DeduplicateIssues(allIssues);
    hide Deduplicator.Deduplicated;
    var scoredIssues := ScoreIssues(deduplicationResult.issues, context.scoring);
    var bySeverity := CountBySeverity(scoredIssues);
    var byCategory := CountByCategory(scoredIssues);
    result := DetectionRunResult(Completed, |scoredIssues|, bySeverity, byCategory, ruleResults, scoredIssues);
  }

  method SelectRules(registry: RuleRegistryImpl, options: RunnerOptions) returns (rulesToRun: seq<Rule>)
    requires registry.Valid()
    ensures rulesToRun == Selected(InOrder(registry.Contents()), options)
  {
    hide InOrder;
    rulesToRun := registry.GetInOrder();
    if options.ruleIds.Some? && |options.ruleIds.value| > 0 {
      rulesToRun := Filter(IsListed(options.ruleIds.value), rulesToRun);
    }
    if options.skipRuleIds.Some? && |options.skipRuleIds.value| > 0 {
      rulesToRun := Filter(IsNotListed(options.skipRuleIds.value), rulesToRun);
    }
  }

  /** The loop over the rules; `failure` is the status of a run that stops early. */
  method ExecuteRules(rulesToRun: seq<Rule>, context: RunContext)
    returns (ruleResults: seq<RuleRunResult>, allIssues: seq<RuleIssue>, failure: Option<RunStatus>)
    ensures failure.Some? <==> context.options.stopOnError && HasError(RunAll(rulesToRun, context))
    ensures failure.Some? ==> exists k :: StoppedAt(k, ruleResults, allIssues, failure.value, rulesToRun, context)
    ensures failure.None? ==>
      ruleResults == RunAll(rulesToRun, context).results && allIssues == RunAll(rulesToRun, context).issues
  {
    hide SkipReasonFor, Limited, HasError, StoppedAt, RunAll;
    ruleResults, allIssues := [], [];
    var firedRules: set<string> := {};
    NothingRun(rulesToRun, context);
    for i := 0 to |rulesToRun|
      invariant RunState(allIssues, firedRules, ruleResults) == RunAll(rulesToRun[..i], context)
      invariant context.options.stopOnError ==> !HasError(RunAll(rulesToRun[..i], context))
    {
      var rule := rulesToRun[i];
      OneMoreRule(rulesToRun, i, context);
      var skip := SkipReasonFor(rule, firedRules, context);
      if skip.Some? {
        ruleResults := ruleResults + [RuleRunResult(rule.id, rule.version, 0, Skipped(skip.value))];
        continue;
      }
      var outcome := context.run(rule, allIssues);
      if outcome.Thrown? {
        ruleResults := ruleResults + [RuleRunResult(rule.id, rule.version, 0, Errored(outcome.message))];
        if context.options.stopOnError {
          failure := Some(Failed(rule.id, outcome.message));
          ErrorStays(rulesToRun, i + 1, context);
          StoppedHere(i + 1, ruleResults, allIssues, failure.value, rulesToRun, context);
          return;
        }
        continue;
      }
      var issues := Limited(outcome.issues, context.options.maxIssuesPerRule);
      if |issues| > 0 {
        firedRules := firedRules + {rule.id};
      }
      allIssues := allIssues + issues;
      ruleResults := ruleResults + [RuleRunResult(rule.id, rule.version, |issues|, Executed)];
    }
    assert rulesToRun[..|rulesToRun|] == rulesToRun;
    failure := None;
  }

  lemma NothingRun(rules: seq<Rule>, context: RunContext)
    ensures RunAll(rules[..0], context) == Start() && !HasError(RunAll(rules[..0], context))
  {
  }

  lemma OneMoreRule(rules: seq<Rule>, i: nat, context: RunContext)
    requires i < |rules|
    ensures var (before, after) := (RunAll(rules[..i], context), RunAll(rules[..i + 1], context));
      && after == Step(before, rules[i], context)
      && (HasError(after) <==> HasError(before) || RunRule(rules[i], before, context).result.status.Errored?)
  {
    hide RunRule;
    assert rules[..i + 1][..i] == rules[..i];
    var before, after := RunAll(rules[..i], context), RunAll(rules[..i + 1], context);
    assert after == Step(before, rules[i], context);
    assert after.results[|before.results|] == RunRule(rules[i], before, context).result;
    assert forall j :: 0 <= j < |before.results| ==> after.results[j] == before.results[j];
  }

  lemma StoppedHere(
    k: nat, ruleResults: seq<RuleRunResult>, issues: seq<RuleIssue>, status: RunStatus, rules: seq<Rule>,
    context: RunContext)
    requires 0 < k <= |rules| && !HasError(RunAll(rules[..k - 1], context))
    requires ruleResults == RunAll(rules[..k], context).results && issues == RunAll(rules[..k], context).issues
    requires ruleResults != [] && ruleResults[|ruleResults| - 1].status.Errored?
    requires status == Failed(rules[k - 1].id, ruleResults[|ruleResults| - 1].status.message)
    ensures StoppedAt(k, ruleResults, issues, status, rules, context)
  {
    ResultsPrefix(rules[..k], k, context);
    hide RunAll, HasError;
  }

  // ---------- What every run keeps ----------

  /** Later rules leave earlier results alone. */
  lemma {:induction false} ResultsPrefix(rules: seq<Rule>, k: nat, context: RunContext)
    requires k <= |rules|
    ensures RunAll(rules[..k], context).results <= RunAll(rules, context).results
    ensures |RunAll(rules, context).results| == |rules|
  {
    hide RunRule;
    if rules == [] {
      assert rules[..k] == [];
    } else {
      var n := |rules| - 1;
      if k <= n {
        ResultsPrefix(rules[..n], k, context);
        assert rules[..n][..k] == rules[..k];
      } else {
        assert rules[..k] == rules;
        ResultsPrefix(rules[..n], n, context);
      }
    }
  }

  lemma ErrorStays(rules: seq<Rule>, k: nat, context: RunContext)
    requires k <= |rules| && HasError(RunAll(rules[..k], context))
    ensures HasError(RunAll(rules, context))
  {
    ResultsPrefix(rules, k, context);
    hide RunAll;
    var some, all := RunAll(rules[..k], context).results, RunAll(rules, context).results;
    var i :| 0 <= i < |some| && some[i].status.Errored?;
    assert all[i] == some[i];
  }

  /** The rules that have found something, with the ids of the first n results. */
  ghost predicate FiredBy(id: string, results: seq<RuleRunResult>) {
    exists j :: 0 <= j < |results| && results[j].ruleId == id && results[j].issueCount > 0
  }

  function CountIssues(results: seq<RuleRunResult>): nat {
    if results == [] then 0 else CountIssues(results[..|results| - 1]) + results[|results| - 1].issueCount
  }

  /** One result per rule, in order; the counts add up to the issues; fired means found something. */
  lemma {:induction false} RunInvariant(rules: seq<Rule>, context: RunContext)
    ensures var state := RunAll(rules, context);
      && |state.results| == |rules|
      && (forall i :: 0 <= i < |rules| ==>
            state.results[i].ruleId == rules[i].id && state.results[i].ruleVersion == rules[i].version)
      && CountIssues(state.results) == |state.issues|
      && forall id :: id in state.fired <==> FiredBy(id, state.results)
  {
    hide RunRule, FiredBy;
    if rules == [] {
      NothingFired();
    } else {
      var k := |rules| - 1;
      RunInvariant(rules[..k], context);
      var before := RunAll(rules[..k], context);
      var last := RunRule(rules[k], before, context).result;
      FiredStep(before.results, last);
      CountStep(before.results, last);
      assert RunAll(rules, context) == Step(before, rules[k], context);
      hide RunAll, CountIssues;
    }
  }

  lemma NothingFired()
    ensures forall id :: !FiredBy(id, [])
  {
  }

  lemma CountStep(results: seq<RuleRunResult>, last: RuleRunResult)
    ensures CountIssues(results + [last]) == CountIssues(results) + last.issueCount
  {
    assert (results + [last])[..|results|] == results;
  }

  lemma FiredStep(results: seq<RuleRunResult>, last: RuleRunResult)
    ensures forall id :: FiredBy(id, results + [last]) <==>
                         FiredBy(id, results) || (id == last.ruleId && last.issueCount > 0)
  {
    var all := results + [last];
    forall id
      ensures FiredBy(id, all) <==> FiredBy(id, results) || (id == last.ruleId && last.issueCount > 0)
    {
      if id == last.ruleId && last.issueCount > 0 {
        assert all[|results|] == last;
      }
      if FiredBy(id, results) {
        var j :| 0 <= j < |results| && results[j].ruleId == id && results[j].issueCount > 0;
        assert all[j] == results[j];
      }
    }
  }

  lemma PrefixAt(a: seq<RuleRunResult>, b: seq<RuleRunResult>, all: seq<RuleRunResult>, i: nat)
    requires a <= all && b <= all && |a| == i && |b| == i + 1
    ensures all[..i] == a && all[i] == b[i]
  {
  }

  /**
   * A rule is skipped as suppressed only by suppressors that found something earlier in the run,
   * and no rule executes when one of its suppressors did.
   */
  lemma SuppressionHonoured(rules: seq<Rule>, context: RunContext, i: nat)
    requires i < |rules|
    ensures |RunAll(rules, context).results| == |rules|
    ensures var (result, earlier) := (RunAll(rules, context).results[i], RunAll(rules, context).results[..i]);
      && (result.status.Executed? || result.status.Errored? ==>
            forall id :: id in rules[i].suppressedBy ==> !FiredBy(id, earlier))
      && (result.status.Skipped? && result.status.reason.SuppressedBy? ==>
            && result.status.reason.rules != []
            && forall id :: id in result.status.reason.rules <==> id in rules[i].suppressedBy && FiredBy(id, earlier))
  {
    hide RunAll, FiredBy, RunRule, CountIssues, HasError;
    ResultsPrefix(rules, i, context);
    ResultsPrefix(rules, i + 1, context);
    RunInvariant(rules[..i], context);
    var before := RunAll(rules[..i], context);
    OneMoreRule(rules, i, context);
    PrefixAt(before.results, RunAll(rules[..i + 1], context).results, RunAll(rules, context).results, i);
    SuppressorsHaveFired(rules[i], before, context);
  }

  lemma SuppressorsHaveFired(rule: Rule, state: RunState, context: RunContext)
    ensures var status := RunRule(rule, state, context).result.status;
      && (status.Executed? || status.Errored? ==> forall id :: id in rule.suppressedBy ==> id !in state.fired)
      && (status.Skipped? && status.reason.SuppressedBy? ==>
            && status.reason.rules != []
            && forall id :: id in status.reason.rules <==> id in rule.suppressedBy && id in state.fired)
  {
    hide Limited, IsRuleEnabled;
    var suppressing := Filter(HasFired(state.fired), rule.suppressedBy);
    FilterMembers(HasFired(state.fired), rule.suppressedBy);
    forall id ensures id in suppressing <==> id in rule.suppressedBy && id in state.fired {
      assert HasFired(state.fired)(id) <==> id in state.fired;
    }
    hide Filter;
  }

  /** An executed rule saw the issues of the rules before it and contributed its own, in order. */
  lemma RuleSeesEarlierIssues(rules: seq<Rule>, context: RunContext, i: nat)
    requires i < |rules|
    ensures var (before, after) := (RunAll(rules[..i], context), RunAll(rules[..i + 1], context));
      && |after.results| == i + 1
      && (after.results[i].status.Executed? ==>
            && context.run(rules[i], before.issues).Found?
            && after.issues ==
               before.issues + Limited(context.run(rules[i], before.issues).issues, context.options.maxIssuesPerRule)
            && after.results[i].issueCount == |after.issues| - |before.issues|)
      && (!after.results[i].status.Executed? ==> after.issues == before.issues && after.results[i].issueCount == 0)
  {
    ResultsPrefix(rules[..i], i, context);
    OneMoreRule(rules, i, context);
    hide RunAll, Limited, SkipReasonFor, HasError;
  }

  /**
   * On completion the issue counts of the rules add up to the final issues, the suppressed ones
   * and the duplicates.
   */
  lemma CompletedRunConserves(result: DetectionRunResult, rules: seq<Rule>, context: RunContext)
    requires Counted(result) && RanToCompletion(result, rules, context)
    ensures |result.ruleResults| == |rules|
    ensures forall i :: 0 <= i < |rules| ==> result.ruleResults[i].ruleId == rules[i].id
    ensures var d := Deduplicator.Deduplicated(RunAll(rules, context).issues, Deduplicator.RULE_HIERARCHY);
      CountIssues(result.ruleResults) == result.issuesTotal + |d.suppressed| + |d.duplicates|
  {
    hide RunAll, CountIssues, CountSeverity, CountCategory, IsScored;
    RunInvariant(rules, context);
    Deduplicator.DeduplicationConserves(RunAll(rules, context).issues, Deduplicator.RULE_HIERARCHY);
  }

  /** Severity and category counts each add up to the number of issues, whether the run completes or stops. */
  lemma CountsAddUp(result: DetectionRunResult)
    requires Counted(result)
    ensures SeverityTotal(result.issuesBySeverity) == result.issuesTotal
    ensures CategoryTotal(result.issuesByCategory) == result.issuesTotal
  {
    SeveritiesAddUp(result.issues);
    CategoriesAddUp(result.issues);
    hide CountSeverity, CountCategory;
    forall c ensures CountIn(result.issuesByCategory, c) == CountCategory(result.issues, c) {
    }
  }

  /** Under stopOnError the results are those of the rules up to the failing one, all counted. */
  lemma FailedRunConserves(result: DetectionRunResult, rules: seq<Rule>, context: RunContext)
    requires Counted(result) && StoppedAtFirstError(result, rules, context)
    ensures 0 < |result.ruleResults| <= |rules|
    ensures result.ruleResults <= RunAll(rules, context).results
    ensures CountIssues(result.ruleResults) == result.issuesTotal
    ensures var n := |result.ruleResults|;
      && result.ruleResults[n - 1].status.Errored?
      && result.status == Failed(rules[n - 1].id, result.ruleResults[n - 1].status.message)
      && forall i :: 0 <= i < n - 1 ==> !result.ruleResults[i].status.Errored?
  {
    hide RunAll, CountIssues, FiredBy, HasError;
    var k: nat :| StoppedAt(k, result.ruleResults, result.issues, result.status, rules, context);
    ResultsPrefix(rules, k, context);
    RunInvariant(rules[..k], context);
    OnlyLastErrs(k, rules, context);
  }

  lemma OnlyLastErrs(k: nat, rules: seq<Rule>, context: RunContext)
    requires 0 < k <= |rules| && !HasError(RunAll(rules[..k - 1], context))
    ensures |RunAll(rules[..k], context).results| == k
    ensures forall i :: 0 <= i < k - 1 ==> !RunAll(rules[..k], context).results[i].status.Errored?
  {
    hide RunAll;
    ResultsPrefix(rules[..k], k - 1, context);
    ResultsPrefix(rules[..k - 1], k - 1, context);
    assert rules[..k][..k - 1] == rules[..k - 1];
    var earlier, all := RunAll(rules[..k - 1], context).results, RunAll(rules[..k], context).results;
    forall i | 0 <= i < k - 1 ensures !all[i].status.Errored? {
      assert earlier[i] == all[i];
    }
  }

  // ---------- Selection keeps the execution order ----------

  lemma {:induction false} FilterOrdered(p: Rule -> bool, list: seq<Rule>, rules: seq<Rule>)
    requires Ordered(list, rules)
    ensures Ordered(Filter(p, list), rules)
  {
    hide Precedes;
    if list != [] {
      var k := |list| - 1;
      FilterOrdered(p, list[..k], rules);
      FilterMembers(p, list[..k]);
      var rest := Filter(p, list[..k]);
      forall i | 0 <= i < |rest| ensures Precedes(rest[i], list[k], rules) {
        assert rest[i] in rest;
        var j :| 0 <= j < k && list[..k][j] == rest[i];
        assert Precedes(list[j], list[k], rules);
      }
    }
  }

  /** The selected rules run by tier, then priority, then registration, and are the ones asked for. */
  lemma SelectedInOrder(rules: seq<Rule>, options: RunnerOptions)
    requires DistinctIds(rules)
    ensures Ordered(Selected(InOrder(rules), options), rules)
    ensures forall rule :: rule in Selected(InOrder(rules), options) <==>
      && rule in rules
      && (options.ruleIds.Some? && options.ruleIds.value != [] ==> rule.id in options.ruleIds.value)
      && (options.skipRuleIds.Some? ==> rule.id !in options.skipRuleIds.value)
  {
    hide Precedes;
    ExecutionOrder(rules);
    var all := InOrder(rules);
    forall rule ensures rule in all <==> rule in rules {
      assert rule in all <==> rule in multiset(all);
      assert rule in rules <==> rule in multiset(rules);
    }
    hide InOrder;
    var ids, skip := options.ruleIds.GetOr([]), options.skipRuleIds.GetOr([]);
    FilterOrdered(IsListed(ids), all, rules);
    FilterMembers(IsListed(ids), all);
    var asked := if |ids| > 0 then Filter(IsListed(ids), all) else all;
    forall rule ensures rule in asked <==> rule in rules && (|ids| > 0 ==> rule.id in ids) {
      assert IsListed(ids)(rule) <==> rule.id in ids;
    }
    FilterOrdered(IsNotListed(skip), asked, rules);
    FilterMembers(IsNotListed(skip), asked);
    hide Filter;
    forall rule ensures rule in Selected(all, options) <==> rule in asked && rule.id !in skip {
      assert IsNotListed(skip)(rule) <==> rule.id !in skip;
    }
  }

  // ---------- Why a rule is skipped ----------

  /** The configuration turns the rule off: a list of enabled rules lacks it, or there is none and it is disabled. */
  predicate TurnedOff(rule: Rule, config: DetectionConfig) {
    match config.enabledRules
    case Some(ids) => if ids != [] then rule.id !in ids else ListsDisabled(rule, config.disabledRules)
    case None => ListsDisabled(rule, config.disabledRules)
  }

  predicate ListsDisabled(rule: Rule, disabled: Option<seq<string>>) {
    !rule.enabled || (disabled.Some? && rule.id in disabled.value)
  }

  predicate UsageTooOld(rule: Rule, context: RunContext) {
    context.usageDataStale && context.scoring.config.gating.skipIfUsageStale && UsageEvents in rule.requiresData
  }

  predicate CrmTooOld(rule: Rule, context: RunContext) {
    context.crmDataStale && context.scoring.config.gating.skipIfCRMStale && Contracts in rule.requiresData
  }

  /**
   * In every run a rule is skipped as disabled exactly when the configuration turns it off; else for
   * stale usage data, else for stale CRM data, exactly when it needs them; else as suppressed exactly
   * when one of its suppressors found something before; and otherwise it is run on the issues so far.
   */
  lemma SkippedExactlyWhen(rules: seq<Rule>, context: RunContext, i: nat)
    requires i < |rules|
    ensures |RunAll(rules, context).results| == |rules|
    ensures var (rule, before, status) :=
        (rules[i], RunAll(rules[..i], context), RunAll(rules, context).results[i].status);
      if TurnedOff(rule, context.scoring.config) then status == Skipped(Disabled)
      else if UsageTooOld(rule, context) then status == Skipped(UsageStale)
      else if CrmTooOld(rule, context) then status == Skipped(CrmStale)
      else if exists id :: id in rule.suppressedBy && FiredBy(id, before.results) then
        status.Skipped? && status.reason.SuppressedBy?
      else
        match context.run(rule, before.issues)
        case Found(_) => status == Executed
        case Thrown(message) => status == Errored(message)
  {
    hide RunAll, FiredBy, RunRule, CountIssues, HasError;
    ResultsPrefix(rules, i, context);
    ResultsPrefix(rules, i + 1, context);
    RunInvariant(rules[..i], context);
    var before := RunAll(rules[..i], context);
    OneMoreRule(rules, i, context);
    PrefixAt(before.results, RunAll(rules[..i + 1], context).results, RunAll(rules, context).results, i);
    StatusOfRule(rules[i], before, context);
  }

  lemma StatusOfRule(rule: Rule, state: RunState, context: RunContext)
    ensures var status := RunRule(rule, state, context).result.status;
      if TurnedOff(rule, context.scoring.config) then status == Skipped(Disabled)
      else if UsageTooOld(rule, context) then status == Skipped(UsageStale)
      else if CrmTooOld(rule, context) then status == Skipped(CrmStale)
      else if exists id :: id in rule.suppressedBy && id in state.fired then
        status.Skipped? && status.reason.SuppressedBy?
      else
        match context.run(rule, state.issues)
        case Found(_) => status == Executed
        case Thrown(message) => status == Errored(message)
  {
    hide Limited;
    var suppressing := Filter(HasFired(state.fired), rule.suppressedBy);
    FilterMembers(HasFired(state.fired), rule.suppressedBy);
    hide Filter;
    assert suppressing != [] ==> suppressing[0] in suppressing;
    if id :| id in rule.suppressedBy && id in state.fired {
      assert HasFired(state.fired)(id);
    }
  }

  /** A positive limit keeps the first issues up to it; without one, or with zero, all are kept. */
  lemma LimitKeepsFirst(issues: seq<RuleIssue>, max: Option<int>)
    ensures var kept := Limited(issues, max);
      && kept <= issues
      && (max.None? || max.value == 0 ==> kept == issues)
      && (max.Some? && max.value > 0 ==> |kept| == if |issues| <= max.value then |issues| else max.value)
      && (max.Some? && max.value < 0 ==> |kept| == if |issues| + max.value >= 0 then |issues| + max.value else 0)
  {
  }
}
