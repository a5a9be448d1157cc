# Cogtics: revenue recognition, detection and dead letters

A Dafny model of three parts of Cogtics, with proofs of what they guarantee.

* **Revenue recognition** (`packages/revrec/src`): from the terms of a contract to performance
  obligations, a split of the transaction price, calendar schedules, recognition events, deferred
  balances, and the reconciliation with invoices.
  `Obligations`, `Allocation`, `Schedules`, `Recognition`, `Deferred`, `Pipeline`, `Views`,
  `Reconciliation`, `PeriodKey`, `Billing`.
* **Detection** (`packages/rules/src`): the rule registry and its execution order, the run over the
  rules, issue keys, duplicate removal and hierarchy suppression, scoring.
  `Registry`, `Runner`, `IssueKey`, `Deduplicator`, `Scorer`.
* **Dead letters** (`apps/worker/src/dlq-handler.ts`): the database statements and the calls that run
  uninterrupted, any of whose statements may throw (`DeadLetter`), and every interleaving of the
  statements of concurrent calls (`Interleaving`).

`Money`, `Calendar`, `Text`, `Sequences`, `Sorting` and `Wrappers` are shared.

## How things are represented

* Amounts are exact real numbers in currency units. `round(x, 2)` is `Round2`, which rounds half up
  like `Math.round` (section 21.3.2.28 of ECMA-262). Results hold for all amounts unless a clause
  says whole cents.
* Dates are midnights, as day numbers on the Gregorian calendar of section 21.4.1 of ECMA-262.
  `new Date(year, ...)` reads the years 0 to 99 as 1900 to 1999, and the model does the same.
* The current time, generated ids, parsed contract values and the `run` functions of the rules are
  parameters; results about detection hold for every rule set.
* Loops are methods with invariants, proved against descriptions of their result; the registry and
  the dead-letter queue are classes whose fields the methods update. The loops of the three
  proportional allocation strategies differ only in the shares and are one method, `SplitByShares`.
  An `Array.prototype.sort` is a stable insertion sort, a `Map` or `Record` that is iterated over is
  a map with its keys in insertion order.

## Where the code does something else than its documentation or comments say

* The period amount is documented as daily rate times period days. The rate divides by the exclusive
  number of days while the periods count inclusive days, so that formula overshoots by one day's
  revenue (`FullSharesOvershoot`); the last period makes up for it (`StraightLineRounding`).
* Without selling prices the documentation promises equal shares; the code splits by transaction
  price. For two or more obligations that is equal exactly when the prices add up to zero, the total
  is zero, or all prices are the same (`EqualSplitIff`, `EqualSplitFailsExample`), and for a contract
  exactly when its terms give no contract value, one that is not positive, or the ARR
  (`EqualSplitIffValue`).
* The last residual item is commented as a remainder but is one more equal part, so cents can appear
  or vanish (`ResidualDrift`, `ResidualDriftExample`).
* A single obligation gets its own price, not the total (`AllocationValidates`). The contract price is
  then conserved exactly when there is no ARR, the terms give no positive contract value, or that value
  rounds to the same cents (`SingleConservesIff`, `SingleConservesExample`).
* The last obligation takes the remainder, which can be negative (`LastNegativeByPrices`); of contracts
  in whole cents that are split equally it is so exactly for two cents over four obligations and three
  over five (`LastNegativeIffTiny`, `LastNegativeExample`).
* The usage schedule can leave out the last day of the term (`UsageCoversEnd`, `UsageLeavesOutExample`).
* Applying its own events to a schedule can add up to more than the events recognise, because nothing
  is recognised of a negative last period (`PeriodViewAgreesIff`, `ViewsDisagreeExample`).
* A period in which nothing is scheduled is `matched` with any invoice under the default thresholds
  (`StatusMeaning`, `ZeroMatchesAnything`).
* Timing variance is commented as an invoice in a different period than its schedule. The two sides of
  a row have the very same period (`RowIsOnePeriod`), so it takes an invoice with a period of its own
  that is dated off its end; an invoice without one never counts (`StatusMeaning`). It is documented as
  similar amounts with different dates, but for a scheduled amount of zero or less any amount passes for
  similar (`TimingMeansSimilarIff`, `AnythingIsTimingExample`).
* Distinct issues can have the same key text: with clean names, exactly those with two or more
  dimensions, or one whose value goes on like a further one (`CollidesIff`).
* In a duplicate record, `original` is the issue that is dropped (`DuplicatesConserve`).
* The requeue update does not repeat the guard of its select, so it can overwrite a discard
  (`DiscardIsFinalUnlessPending`, `DiscardOverwritten`).
* A requeued entry can have several jobs. Without concurrency it has one more for each update that
  threw after the insert, which the catch branch answers with a failure (`OneJobUnlessUpdateLost`,
  `TwoJobsOneAtATime`). In general a further job can follow exactly as long as the entry is marked
  failed or a requeue is between its select and its insert (`AnotherJobIff`, `TwoJobsInterleaved`).
  Runs in which no calls overlap and no update is lost keep both promises (`SerialRunsKeepPromises`).
* A tenant's job can have several entries: a further one can follow exactly while a move of it is
  between its select and its insert (`AnotherEntryIff`, `TwoEntriesInterleaved`).

## Model

| member | source | states |
|---|---|---|
| Calendar.DayFromYearFormula | packages/revrec/src/schedules.ts:271-286 | the calendar built year by year agrees with the closed formula of ECMA-262, for all years |
| Calendar.FieldsOfMakeDay | packages/revrec/src/schedules.ts:277-286 | every valid civil date is the year, month and date of its own day |
| Calendar.NewDateOfFields | packages/revrec/src/schedules.ts:277-286 | a day is rebuilt from its fields, through `new Date` exactly when its year is not 0 to 99 |
| Calendar.EndOfNotBefore | packages/revrec/src/schedules.ts:277-286 | the end of a month or quarter never comes before the day, so no period is empty and the loops end |
| Calendar.EndOfStaysInPeriod | packages/revrec/src/schedules.ts:277-286 | it lies in the same month or quarter, with the next day in the next one, if and only if the year is not 0 to 99 |
| Calendar.EndOfMonthIs | packages/revrec/src/schedules.ts:277-280 | for every day the year, month and date of the month's end: 30, 31, 28 or 29 by month and leap year, in the year that `new Date` reads |
| Calendar.EndOfQuarterIs | packages/revrec/src/schedules.ts:282-286 | likewise the last day of March, June, September or December |
| Calendar.AddDays | packages/revrec/src/schedules.ts:271-275 | `setDate` arithmetic through year, month and date is plain addition of days |
| Calendar.NextYearIsLater | packages/revrec/src/obligations.ts:279-283 | a year later is 365 or 366 days later, also from 29 February, so a defaulted end date is always valid |
| Calendar.AddYearsIs | packages/revrec/src/obligations.ts:279-283 | for every day and number of years: the same month and date, but 29 February becomes 1 March in a common year |
| Obligations.GroupTermsByObligation | packages/revrec/src/obligations.ts:120-137 | the groups are the terms of each mapped type in order, keyed in order of first appearance |
| Obligations.CreateObligationFromTerms | packages/revrec/src/obligations.ts:142-189 | price, ids and method of a group, and none for a price that is not positive |
| Obligations.LastValueMeaning | packages/revrec/src/obligations.ts:150-165 | of several contract values that parse, the last one is the price |
| Obligations.IdentifyObligations | packages/revrec/src/obligations.ts:47-87 | the method computes `Identified`, including the error and the two fall-backs |
| Obligations.ObligationsByType | packages/revrec/src/obligations.ts:67-79 | exactly one obligation for each type with a positive price, from all terms of that type |
| Obligations.IdentifiedIsSound | packages/revrec/src/obligations.ts:47-115 | fails exactly on a given end date not after the start; otherwise positive prices, distinct types, the method of the type, the whole non-empty term |
| Obligations.IdentifiedByType | packages/revrec/src/obligations.ts:58-86 | the ARR stands in for the obligations only when no type has a positive price |
| Obligations.DefaultTermIsAYear | packages/revrec/src/obligations.ts:51-52 | without an end date every obligation ends a year after its start, on the same date but for 29 February |
| Obligations.TermTypesOf | packages/revrec/src/obligations.ts:19-32 | which term types belong to each obligation type, and that no others do |
| Obligations.MethodsOf | packages/revrec/src/obligations.ts:247-273 | which obligation types are recognised in each way |
| Obligations.DefaultObligationIs | packages/revrec/src/obligations.ts:92-115 | the one subscription that stands in for a positive ARR, and none otherwise |
| Allocation.SplitByShares | packages/revrec/src/allocation.ts:77-99 | one result per obligation in order, rounded shares, and the rounded rest for the last |
| Allocation.AllocateBySSP | packages/revrec/src/allocation.ts:60-102 | shares in proportion to selling prices, equal shares when these add up to zero |
| Allocation.AllocateByTransactionPrice | packages/revrec/src/allocation.ts:171-210 | shares in proportion to transaction prices, equal shares when these add up to zero |
| Allocation.AllocateEqually | packages/revrec/src/allocation.ts:215-243 | equal shares and percentages |
| Allocation.AllocateByResidual | packages/revrec/src/allocation.ts:107-166 | after two passes and the sort, entry i is the one the waterfall gives obligation i |
| Allocation.AllocatePrices | packages/revrec/src/allocation.ts:25-55 | which strategy applies to which obligations |
| Allocation.StrategyBySellingPrices | packages/revrec/src/allocation.ts:43-54 | the basis of every result, by which obligations have a selling price |
| Allocation.ProportionalPercentages | packages/revrec/src/allocation.ts:77-98 | percentages are the shares of a hundred, to four decimals |
| Allocation.PercentageOfTotal | packages/revrec/src/allocation.ts:123-157 | the percentages of a residual split are parts of the total, to four decimals |
| Allocation.ProportionalConserves | packages/revrec/src/allocation.ts:77-101 | the amounts add up to the rounded total, to the cent for whole cents, for any weights with non-zero sum |
| Allocation.ProportionalBounds | packages/revrec/src/allocation.ts:85-91 | every amount but the last is within half a cent of its exact share, the last of n within n/2 cents, (n-1)/2 for a whole-cent total |
| Allocation.ResidualWaterfall | packages/revrec/src/allocation.ts:113-129 | a known item gets its price as far as the total reaches after the earlier known prices |
| Allocation.ResidualDrift | packages/revrec/src/allocation.ts:135-162 | with r residual items the sum is within r/2 cents of the price, and equal to it if and only if the left-over splits into whole cents |
| Allocation.ResidualDriftExample | packages/revrec/src/allocation.ts:139-151 | a left-over cent becomes two |
| Allocation.AllocationValidates | packages/revrec/src/allocation.ts:248-259 | the validator accepts at zero tolerance exactly when the left-over of a residual split divides evenly, or a single own price is 0 or the total |
| Allocation.ValidatesWithin | packages/revrec/src/allocation.ts:248-259 | the validator accepts exactly what comes within the tolerance of the price |
| Allocation.LastNegativeIff | packages/revrec/src/allocation.ts:80-88 | for any weights the last amount is negative exactly when the rounded shares of the others exceed the rounded total |
| Allocation.EqualLastNegative | packages/revrec/src/allocation.ts:187-199 | for equal weights of any kind, in whole cents, the last amount and its sign by quotient and remainder |
| Allocation.EqualSplitIff | packages/revrec/src/allocation.ts:171-199 | without selling prices the unrounded shares are equal if and only if the prices add up to zero, the total is zero, or all prices are the same |
| Allocation.EqualSplitFailsExample | packages/revrec/src/allocation.ts:188-199 | prices of 1 and 3 split 4 into 1 and 3 |
| Schedules.GenerateStraightLineSchedule | packages/revrec/src/schedules.ts:80-174 | the loop ends and returns the chained periods with their amounts, rates, days and status |
| Schedules.GenerateUsageBasedSchedule | packages/revrec/src/schedules.ts:179-217 | zero-amount periods chained over the term up to its last or last but one day |
| Schedules.GenerateSchedule | packages/revrec/src/schedules.ts:25-74 | the schedule of each recognition method |
| Schedules.StraightLineUnique | packages/revrec/src/schedules.ts:104-173 | the description used for straight-line schedules determines them |
| Schedules.EachDayInOnePeriod | packages/revrec/src/schedules.ts:127-171 | every day of the term is in exactly one period, no other day in any |
| Schedules.ChainDays | packages/revrec/src/schedules.ts:142-161 | inclusive period days add up to the inclusive length of the term |
| Schedules.PeriodWithinCalendar | packages/revrec/src/schedules.ts:131-140 | a period stays in one month or quarter unless it starts in the years 0 to 99 and the term goes on |
| Schedules.PeriodCount | packages/revrec/src/schedules.ts:127-171 | from year 100 on there are as many periods as the term touches months or quarters |
| Schedules.PeriodDates | packages/revrec/src/schedules.ts:127-171 | from year 100 on every period but the last ends on the last date of its month or quarter, and the next starts the day after |
| Schedules.SinglePeriods | packages/revrec/src/schedules.ts:85-262 | dates, amounts, days, rate and status of milestone, as-invoiced and same-day schedules |
| Schedules.UsageCoversEnd | packages/revrec/src/schedules.ts:190-214 | for every term, the last day is left out exactly when the day before ends a month or quarter and no period running over from the years 0 to 99 covers it |
| Schedules.UsageLeavesOutExample | packages/revrec/src/schedules.ts:190-214 | from 15 January to 1 February the schedule ends on 31 January |
| Schedules.StraightLineConserves | packages/revrec/src/schedules.ts:145-152 | scheduled amounts add up to the rounded total, to the cent for whole cents |
| Schedules.StraightLineRounding | packages/revrec/src/schedules.ts:121-152 | non-last amounts are within half a cent of rate times days, the last of n within (n-1)/2 cents of one day less |
| Schedules.FullSharesOvershoot | packages/revrec/src/schedules.ts:105-150 | rate times days over all periods is the total and one more day's rate |
| Recognition.CreateRecognitionEvents | packages/revrec/src/recognition.ts:24-95 | the loop returns the events of the periods |
| Recognition.EventsMatchPeriods | packages/revrec/src/recognition.ts:31-94 | exactly one event for each period that is due, in period order, carrying its index |
| Recognition.EventOfPeriod | packages/revrec/src/recognition.ts:31-92 | for each method when there is an event, and its date, amount and type |
| Recognition.ApplyEventsConserves | packages/revrec/src/recognition.ts:190-214 | on whole cents recognised plus deferred is scheduled, within bounds, with the status that follows, and a second application changes nothing |
| Recognition.CumulativeIsDue | packages/revrec/src/recognition.ts:176-185 | the cumulative amount is what the periods ended by the cut-off have scheduled |
| Recognition.RecognizedPerPeriod | packages/revrec/src/recognition.ts:195-196 | the events of a period sum to its own amount, or to zero if it is not due |
| Recognition.PeriodViewIsEventView | packages/revrec/src/recognition.ts:176-214 | applied periods add up to the cumulative amount if and only if no due period is negative |
| Deferred.UniqueEndsAscend | packages/revrec/src/deferred.ts:31-34 | the period ends, from any order and with repeats, come out distinct and ascending |
| Deferred.ComputeDeferredBalances | packages/revrec/src/deferred.ts:22-102 | the windowed loop gives the closed form: closing balance is price less all performance events up to the period end |
| Deferred.RollforwardByTypes | packages/revrec/src/deferred.ts:31-98 | every field of every balance by event types: what scheduled, usage and milestone events take off the price, all events and the adjusting ones of the window |
| Deferred.RollforwardChains | packages/revrec/src/deferred.ts:85-97 | each opening balance is the previous closing one, the first is the price |
| Deferred.AdjustmentsAreInert | packages/revrec/src/deferred.ts:59-86 | the balance is the same with adjustment, cancellation and amendment events removed |
| Deferred.ClosingIgnoresAdjustments | packages/revrec/src/deferred.ts:59-97 | opening and closing balances of whole rollforwards do not depend on those events |
| Deferred.ValidateBalanceRollforward | packages/revrec/src/deferred.ts:149-183 | the complaints in order, and valid exactly when every step and every joint is within tolerance |
| Deferred.ValidatorSound | packages/revrec/src/deferred.ts:149-183 | n accepted balances are off by at most 2n - 1 tolerances end to end |
| Deferred.ComputedRollforwardValidates | packages/revrec/src/deferred.ts:88-95 | computed rollforwards pass at one cent for any amounts and at zero for whole cents |
| Deferred.GetBalanceAsOfIsLatest | packages/revrec/src/deferred.ts:188-198 | found exactly when some period has ended, and then one with the latest end |
| Deferred.BalanceAsOfClosedForm | packages/revrec/src/deferred.ts:188-198 | on a computed rollforward it is the closed form at the latest end not after the date |
| Pipeline.ComputeRevRec | packages/revrec/src/index.ts:68-127 | all five stages for every obligation, the error, and the empty result |
| Pipeline.BalancePlusRecognized | packages/revrec/src/index.ts:86-118 | at every period of every obligation, balance and recognised amount add up to the allocated amount |
| Pipeline.StraightLineFinalBalance | packages/revrec/src/index.ts:101-118 | the final balance is what ends after the as-of date, zero once the term has passed |
| Pipeline.OtherMethodsRecognize | packages/revrec/src/index.ts:101-118 | as-invoiced amounts are recognised at once unless negative, milestone and usage amounts stay deferred |
| Pipeline.ThreeViewsAgree | packages/revrec/src/recognition.ts:176-214 | events, price less deferred balance, and applied periods give one recognised amount; the exact condition for the last |
| Pipeline.ContractConserves | packages/revrec/src/index.ts:86-126 | recognised plus deferred over two or more obligations is the contract price to the cent, over one its own price |
| Pipeline.SingleConservesIff | packages/revrec/src/allocation.ts:33-41 | over one it is the contract price if and only if there is no ARR, no positive contract value, or both round to the same cents |
| Pipeline.SingleConservesExample | packages/revrec/src/allocation.ts:33-41 | a contract value of 120 with an ARR of 100 settles at 120 |
| Pipeline.LastNegativeByPrices | packages/revrec/src/allocation.ts:187-199 | the last obligation of a contract gets a negative amount exactly when the rounded shares of the others exceed the contract price |
| Pipeline.LastNegativeIffTiny | packages/revrec/src/allocation.ts:187-199 | of contracts in whole cents that are split equally, exactly those of two cents over four obligations and three over five |
| Pipeline.LastNegativeExample | packages/revrec/src/allocation.ts:187-199 | with one term of each type and an ARR of three cents the last obligation gets minus one cent |
| Pipeline.EqualSplitIffValue | packages/revrec/src/obligations.ts:150-168 | two or more obligations of a contract share its price equally if and only if the contract value of its terms is missing, not positive, or the ARR |
| Views.DueInClosedForm | packages/revrec/src/schedules.ts:121-152 | what is due by a date, and the last amount, from the term and the total alone |
| Views.PeriodViewAgreesIff | packages/revrec/src/recognition.ts:176-214 | from the term and the amount alone, when applied periods add up to the recognised amount: if not negative, before the end or unless the earlier rounded shares exceed it; if negative, while what is recognised rounds to zero |
| Views.ViewsDisagreeExample | packages/revrec/src/recognition.ts:195-205 | one cent from 1 July to 1 September: the last period is minus one cent, and from then on the views differ |
| PeriodKey.FormatThenParse | packages/revrec/src/reconciliation.ts:314-324 | a printed date reads back as itself if and only if its year is at least 100 |
| PeriodKey.PeriodKeyRoundTrip | packages/revrec/src/reconciliation.ts:297-312 | the same for the two dates of a key |
| PeriodKey.PeriodKeyInjective | packages/revrec/src/reconciliation.ts:297-301 | different periods have different keys, whatever their years |
| Reconciliation.GroupSchedulesByPeriod | packages/revrec/src/reconciliation.ts:255-269 | the schedules of each key in order, keys in order of first appearance |
| Reconciliation.GroupInvoicesByPeriod | packages/revrec/src/reconciliation.ts:274-292 | the same for invoices, by their period or their date |
| Reconciliation.CheckTimingMismatch | packages/revrec/src/reconciliation.ts:175-207 | true exactly when some pair is near in time and amount |
| Reconciliation.ReconcileSchedulesWithInvoices | packages/revrec/src/reconciliation.ts:40-122 | one row for each distinct period of either side, sorted by start, and their summary |
| Reconciliation.InOneGroup | packages/revrec/src/reconciliation.ts:55-62 | every schedule and every invoice is in exactly one period's group |
| Reconciliation.PeriodsCover | packages/revrec/src/reconciliation.ts:54-58 | the periods are distinct and cover both sides |
| Reconciliation.ReconciliationPartitions | packages/revrec/src/reconciliation.ts:60-110 | on whole cents the rows add up to all schedules, all invoices, and their difference |
| Reconciliation.ReconciliationWithinRounding | packages/revrec/src/reconciliation.ts:60-110 | on any amounts scheduled, invoiced and variance totals are each off by at most half a cent a row |
| Reconciliation.SummaryAddsUp | packages/revrec/src/reconciliation.ts:113-119 | the five counts add up to the number of rows |
| Reconciliation.SummaryCounts | packages/revrec/src/reconciliation.ts:113-119 | each count is the number of rows with its status |
| Reconciliation.RowsInOrder | packages/revrec/src/reconciliation.ts:109-110 | rows ascend by start date, none is lost |
| Reconciliation.RowDates | packages/revrec/src/reconciliation.ts:64-94 | a row has the dates of its schedules if and only if both years are at least 100 |
| Reconciliation.RowPercentage | packages/revrec/src/reconciliation.ts:76-79 | a row has a percentage exactly when something is scheduled, and which |
| Reconciliation.RowIsOnePeriod | packages/revrec/src/reconciliation.ts:261-286 | a schedule and an invoice under one key have the same two dates |
| Reconciliation.StatusMeaning | packages/revrec/src/reconciliation.ts:127-170 | for every row, each of the five statuses if and only if a condition on the schedules and invoices of its period; one side is always there |
| Reconciliation.DefaultThresholds | packages/revrec/src/reconciliation.ts:26-30 | by default a hundred units, one percent and thirty days are tolerated |
| Reconciliation.ZeroMatchesAnything | packages/revrec/src/reconciliation.ts:151-160 | under the default thresholds an invoice of any amount matches a period with nothing scheduled |
| Reconciliation.TimingMeansSimilarIff | packages/revrec/src/reconciliation.ts:191-201 | the timing test guarantees an amount within a tenth of the scheduled one if and only if that is positive, or no days are tolerated |
| Reconciliation.AnythingIsTimingExample | packages/revrec/src/reconciliation.ts:162-169 | minus one cent against an invoice of 1000 for the same period, up to thirty days off, is a timing variance |
| Billing.BilledRowMatches | packages/revrec/src/reconciliation.ts:60-106 | schedules billed as they stand have no variance in any row, and match if and only if a threshold is not negative |
| Billing.BilledScheduleReconciles | packages/revrec/src/reconciliation.ts:40-122 | a generated schedule billed period by period gives one matched row per period and nothing else |
| IssueKey.EncodeIgnoresOrder | packages/rules/src/utils.ts:119-133 | the key text depends only on the defined dimensions, not on their order or on undefined ones |
| IssueKey.LessIsLexicographic | packages/rules/src/utils.ts:124-126 | the order of the names is lexicographic |
| IssueKey.EncodeInjective | packages/rules/src/utils.ts:119-133 | on clean names and values it determines rule, version and dimensions |
| IssueKey.SeparatorInValueCollides | packages/rules/src/utils.ts:125-131 | a value that goes on with the separator, a later name and its value reads like that second dimension |
| IssueKey.CollidesIff | packages/rules/src/utils.ts:119-133 | with clean names, an issue shares its text with one of other dimensions if and only if it has two or more, or its only value reads on into a later name |
| Deduplicator.BuildInverseHierarchy | packages/rules/src/deduplicator.ts:30-41 | the inverse lists for every child its parents, for any hierarchy |
| Deduplicator.InverseAgrees | packages/rules/src/deduplicator.ts:18-41 | child suppresses parent in one exactly when in the other |
| Deduplicator.RemoveDuplicates | packages/rules/src/deduplicator.ts:74-102 | the map loop returns the best issue of each key in order of first occurrence, and the log |
| Deduplicator.BestIsFirstMaximum | packages/rules/src/deduplicator.ts:104-123 | the survivor is maximal in severity, then confidence, and the earliest such issue |
| Deduplicator.SurvivorIsBest | packages/rules/src/deduplicator.ts:104-123 | no issue with the key of a survivor is more severe, or as severe and more confident, and every earlier one is less |
| Deduplicator.OneSurvivorPerKey | packages/rules/src/deduplicator.ts:78-102 | there is exactly one survivor for each key |
| Deduplicator.SameKeySameRule | packages/rules/src/deduplicator.ts:81-85 | on clean input issues are duplicates exactly when rule, version and dimensions agree |
| Deduplicator.WinnerIgnoresOrder | packages/rules/src/deduplicator.ts:87-99 | the winning rank of a key does not depend on the input order |
| Deduplicator.DuplicatesConserve | packages/rules/src/deduplicator.ts:80-101 | survivors and the dropped sides of the log are the input, issue for issue |
| Deduplicator.BuildIssueIndex | packages/rules/src/deduplicator.ts:172-210 | each of the four maps lists under a key exactly the issues with it, in order |
| Deduplicator.FindSuppressingRule | packages/rules/src/deduplicator.ts:212-230 | through the index it finds the first rule with a matching issue in a plain scan |
| Deduplicator.MatchesEntityIff | packages/rules/src/deduplicator.ts:232-258 | which issues concern the same entity, by contract, invoice, customer and period start |
| Deduplicator.ApplyHierarchySuppression | packages/rules/src/deduplicator.ts:129-159 | the issues kept and the records of those suppressed |
| Deduplicator.SuppressorSurvives | packages/rules/src/deduplicator.ts:129-159 | with no rule on both sides of the hierarchy, every suppressed issue has a matching issue of the recorded rule in the output |
| Deduplicator.SuppressedHaveSurvivingSuppressor | packages/rules/src/deduplicator.ts:18-25 | and the engine's own hierarchy is of that kind |
| Deduplicator.SuppressionPartitions | packages/rules/src/deduplicator.ts:138-158 | kept and suppressed issues are the input, issue for issue |
| Deduplicator.DeduplicationConserves | packages/rules/src/deduplicator.ts:50-68 | output, suppressed and dropped issues together are the input |
| Deduplicator.DeduplicationIdempotent | packages/rules/src/deduplicator.ts:50-68 | a second pass drops nothing and keeps the order |
| Deduplicator.DeduplicateIssues | packages/rules/src/deduplicator.ts:50-68 | the two steps composed |
| Scorer.CalculateScore | packages/rules/src/scorer.ts:68-124 | the rank is the greater of the capped escalated rank and the impact rank; the confidence is capped for contracts not ready |
| Scorer.ContractValueEscalatesIff | packages/rules/src/scorer.ts:135-161 | a contract worth ten critical impacts, or an impact of at least a twentieth of it |
| Scorer.RecurrenceIff | packages/rules/src/scorer.ts:174-213 | two earlier issues it repeats, or a resolved one |
| Scorer.CorrelationIff | packages/rules/src/scorer.ts:223-257 | three issues of different categories, or impacts adding up to a critical one |
| Scorer.ImpactSeverityByThreshold | packages/rules/src/config.ts:141-157 | which thresholds an impact must reach for each severity |
| Scorer.ConfidenceIs | packages/rules/src/scorer.ts:103-110 | when and by what the confidence is capped |
| Scorer.ContractOfNames | packages/rules/src/scorer.ts:42-44 | the contract looked at is one that the issue names, and there is none only if no contract has that id |
| Scorer.RelatedAre | packages/rules/src/scorer.ts:30-46 | the related issues are those of the batch that name the same contract, or none |
| Scorer.ScoreIssues | packages/rules/src/scorer.ts:25-62 | every issue scored among the issues of its contract, all else unchanged |
| Scorer.ScoringDirection | packages/rules/src/scorer.ts:68-124 | no severity is lowered, no confidence raised |
| Scorer.RaisingImpactIsMonotone | packages/rules/src/scorer.ts:135-257 | raising the impacts of any issues of a batch lowers no scored severity |
| Scorer.AddingIssueIsMonotone | packages/rules/src/scorer.ts:223-257 | nor does adding an issue anywhere |
| Scorer.ImpactRankMonotone | packages/rules/src/config.ts:141-157 | a larger impact never has a lower rank, whatever the thresholds |
| Registry.RuleRegistryImpl.Register | packages/rules/src/registry.ts:56-59 | a known id keeps its place and gets the new rule, a new one goes last |
| Registry.RuleRegistryImpl.RegisterAll | packages/rules/src/registry.ts:61-65 | the rules registered one after the other |
| Registry.RuleRegistryImpl.GetByTier | packages/rules/src/registry.ts:81-89 | the rules of a tier, stably sorted by priority |
| Registry.RuleRegistryImpl.GetInOrder | packages/rules/src/registry.ts:101-111 | tier after tier |
| Registry.ExecutionOrder | packages/rules/src/registry.ts:81-111 | every registered rule exactly once, by tier, then priority, then registration |
| Runner.SelectedInOrder | packages/rules/src/runner.ts:39-50 | exactly the rules asked for and not skipped, still in that order |
| Runner.ExecuteRules | packages/rules/src/runner.ts:53-171 | the loop is the fold over the rules, ending early exactly at the first error under stopOnError |
| Runner.RunDetection | packages/rules/src/runner.ts:27-192 | a run that completes or stops, with its counts |
| Runner.RunInvariant | packages/rules/src/runner.ts:53-141 | one result per rule in order, counts that add up to the issues, and fired means found something |
| Runner.SuppressionHonoured | packages/rules/src/runner.ts:92-106 | no rule executes after one of its suppressors found something, and only then is it skipped for that |
| Runner.SkippedExactlyWhen | packages/rules/src/runner.ts:57-139 | for every rule of every run whether it is skipped as disabled, for stale data or as suppressed, or runs, and in this order |
| Runner.LimitKeepsFirst | packages/rules/src/runner.ts:114-117 | the limit keeps the first issues up to it, and what zero and negative limits keep |
| Runner.RuleSeesEarlierIssues | packages/rules/src/runner.ts:108-141 | a rule sees all issues found before it and adds its own, up to the limit |
| Runner.CompletedRunConserves | packages/rules/src/runner.ts:173-191 | issue counts add up to the final issues, the suppressed ones and the duplicates |
| Runner.FailedRunConserves | packages/rules/src/runner.ts:154-169 | under stopOnError the results are the prefix ending at the only error |
| Runner.CountsAddUp | packages/rules/src/runner.ts:229-253 | severity and category counts each add up to the number of issues |
| Runner.CountBySeverity | packages/rules/src/runner.ts:229-243 | a count for every severity |
| Runner.CountByCategory | packages/rules/src/runner.ts:245-253 | a count for exactly the categories that occur |
| DeadLetter.DeadLetterQueue.MoveToDeadLetterQueue | apps/worker/src/dlq-handler.ts:21-98 | one entry for a tenant and job, updated but never set back to failed |
| DeadLetter.DeadLetterQueue.RequeueFromDeadLetterQueue | apps/worker/src/dlq-handler.ts:110-163 | whichever statement throws: an entry has one job for each update lost after an insert, and one more if it is requeued |
| DeadLetter.OneJobUnlessUpdateLost | apps/worker/src/dlq-handler.ts:132-162 | uninterrupted, exactly one job for each requeued entry and none for others if and only if no update was lost |
| DeadLetter.DeadLetterQueue.DiscardFromDeadLetterQueue | apps/worker/src/dlq-handler.ts:168-196 | only a failed entry is discarded, and only if the update does not throw |
| DeadLetter.DeadLetterQueue.BulkRequeueFromDeadLetterQueue | apps/worker/src/dlq-handler.ts:201-256 | the count is the number of entries that turned requeued; jobs beyond it are those of lost updates, whose entries are among the failed ones; failures are reported unless their message is empty; within the limit and the filters |
| DeadLetter.RecordsFailure | apps/worker/src/dlq-handler.ts:47-57 | what a repeated failure changes in its entry, and that nothing else changes |
| DeadLetter.InsertsEntry | apps/worker/src/dlq-handler.ts:60-81 | every field of a new entry |
| DeadLetter.InsertsJob | apps/worker/src/dlq-handler.ts:132-143 | the inserted job has the tenant, type and payload of the entry |
| DeadLetter.MarksEntry | apps/worker/src/dlq-handler.ts:146-182 | a requeue overwrites any status, a discard only a failed one, and nothing else changes |
| DeadLetter.Selects | apps/worker/src/dlq-handler.ts:38-122 | which entries the selects by job and by id return |
| DeadLetter.BulkSelects | apps/worker/src/dlq-handler.ts:218-237 | which entries a bulk requeue goes for, and how many |
| Interleaving.RunGrows | apps/worker/src/dlq-handler.ts:36-196 | over every interleaving, with failures, no entry returns to failed, a requeued one stays so, and nothing is lost |
| Interleaving.RequeuedHasJob | apps/worker/src/dlq-handler.ts:132-154 | over every interleaving a requeued entry has a job that copies it |
| Interleaving.SettledForGood | apps/worker/src/dlq-handler.ts:116-196 | a handled entry with no requeue past its select keeps its status for good |
| Interleaving.DiscardIsFinalUnlessPending | apps/worker/src/dlq-handler.ts:145-182 | a discarded entry can turn requeued if and only if a requeue of it is past its select |
| Interleaving.DiscardOverwritten | apps/worker/src/dlq-handler.ts:145-182 | a run from the empty queue to an entry discarded while a requeue is pending, which then turns requeued |
| Interleaving.AnotherJobIff | apps/worker/src/dlq-handler.ts:117-154 | from any state a further job for an entry can be inserted if and only if it is marked failed or a requeue of it is between select and insert |
| Interleaving.AnotherEntryIff | apps/worker/src/dlq-handler.ts:36-81 | a job with an entry can get a further one if and only if a move of it is between select and insert |
| Interleaving.SerialRunsKeepPromises | apps/worker/src/dlq-handler.ts:36-162 | over every run from the empty queue in which no calls overlap and no update is lost after an insert, a requeued entry has exactly one job and a job at most one entry |
| Interleaving.WholeMove | apps/worker/src/dlq-handler.ts:36-81 | the statements of a move, one after the other, do what the queue's own method says |
| Interleaving.WholeRequeueIs | apps/worker/src/dlq-handler.ts:116-154 | the same for a requeue |
| Interleaving.WholeDiscard | apps/worker/src/dlq-handler.ts:175-183 | the same for a discard |
| Interleaving.BulkGoesThrough | apps/worker/src/dlq-handler.ts:218-247 | a bulk requeue takes matching rows up to the limit and goes through them in order |
| Interleaving.TwoJobsOneAtATime | apps/worker/src/dlq-handler.ts:132-162 | from the empty queue and with no calls overlapping, a lost update leaves a requeued entry with two jobs |
| Interleaving.TwoJobsInterleaved | apps/worker/src/dlq-handler.ts:114-143 | from the empty queue and with nothing failing, two overlapping requeues leave one entry with two jobs |
| Interleaving.TwoEntriesInterleaved | apps/worker/src/dlq-handler.ts:36-81 | from the empty queue two overlapping moves leave two entries for one job |
| Interleaving.BothSelect | apps/worker/src/dlq-handler.ts:117-127 | two requeues can both pass the select |
| Interleaving.BothInsert | apps/worker/src/dlq-handler.ts:132-143 | and then insert two jobs for one entry |
| Interleaving.BothMove | apps/worker/src/dlq-handler.ts:60-81 | two moves that both found nothing insert two entries for one job |

## Left out

- IEEE floating point: amounts are exact, so results differ from the program's by its rounding errors.
- Time zones, daylight saving and times of day; with midnights, the branch for zero total days cannot be reached.
- Texts: descriptions, reconciliation details, error and log messages, escalation reasons.
- Parsing of contract values, and names of `Object.prototype` used as term types or rule ids.
- SHA-256 and its truncation in issue keys: distinct key texts are taken as distinct keys.
- Sorting names by UTF-16 code units: the model compares characters, which differs outside the basic plane.
- `computePeriodBalance`, which counts additions and adjustments differently from the rollforward.
- The constructors of usage, adjustment, cancellation and amendment events, which only fill in fields.
- The individual rules, `dependsOn` (which the runner ignores), the registry's hashes, and the sharing of the issue list between the runner and the context.
- Rule priorities that are not whole numbers, and empty rule ids in the hierarchy.
- Metrics, logging, and columns of the dead-letter tables that nothing here reads; foreign keys and checks of the database appear as statements that may fail.
- A statement that takes effect although its caller sees an error; for the insert of a job that is the same as the update after it failing.
- API server, connectors, scheduler, storage and user interface: input and output, or thin wrappers.
