/** What detection rules report (packages/rules/src/types.ts). */
module RuleTypes {
  import opened Wrappers
  import opened IssueKey

  datatype IssueSeverity = Info | Low | Medium | High | Critical

  datatype IssueCategory =
    | DataQuality | Billing | Discount | RevRec | Credits | UsageCategory
    | Lifecycle | MultiEntity | CrossSnapshot | TaxFees | FxCurrency

  /** `payload` stands for the fields that this part of the engine only carries along. */
  datatype RuleIssue = RuleIssue(
    ruleId: string,
    ruleVersion: string,
    category: IssueCategory,
    severity: IssueSeverity,
    confidence: real,
    impactAmount: Option<real>,
    dimensions: seq<Dimension>,
    contractId: Option<string>,
    invoiceId: Option<string>,
    customerId: Option<string>,
    payload: string)

  function SeverityRank(severity: IssueSeverity): (rank: int)
    ensures 0 <= rank <= 4
  {
    match severity
    case Info => 0
    case Low => 1
    case Medium => 2
    case High => 3
    case Critical => 4
  }

  /** An optional string that is neither missing nor empty. */
  predicate Truthy(s: Option<string>) {
    s.Some? && s.value != ""
  }

  /** The key of an issue, before hashing. */
  function KeyOf(issue: RuleIssue): string {
    Encode(issue.ruleId, issue.ruleVersion, issue.dimensions)
  }
}
