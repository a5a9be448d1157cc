/**
 * The dead-letter queue (apps/worker/src/dlq-handler.ts): its database statements, and the calls
 * that run uninterrupted, any of whose statements may fail.
 */
module DeadLetter {
  import opened Wrappers

  datatype EntryStatus = Failed | Requeued | Discarded

  /** A row of dead_letter_jobs. */
  datatype Entry = Entry(
    tenantId: string,
    originalJobId: string,
    queueName: string,
    jobType: string,
    payload: string,
    errorMessage: string,
    attemptCount: nat,
    firstFailedAt: int,
    lastFailedAt: int,
    status: EntryStatus,
    handledBy: Option<string>)

  /** A row of jobs, as far as requeueing fills it. */
  datatype Job = Job(tenantId: string, jobType: string, payload: string)

  datatype Db = Db(entries: map<string, Entry>, jobs: map<string, Job>)

  /** A job whose retries are exhausted. */
  datatype FailedJob = FailedJob(
    tenantId: string,
    jobId: string,
    queueName: string,
    jobType: string,
    payload: string,
    errorMessage: string,
    attemptsMade: nat)

  // ---------- The database statements ----------

  /** The ids of the entries of a job, for `select id ... where original_job_id and tenant_id`. */
  function EntriesOf(db: Db, job: FailedJob): set<string> {
    set id | id in db.entries && db.entries[id].originalJobId == job.jobId && db.entries[id].tenantId == job.tenantId
  }

  function RecordFailure(db: Db, id: string, job: FailedJob, now: int): Db {
    if id !in db.entries then db
    else db.(entries := db.entries[id := db.entries[id].(
      attemptCount := job.attemptsMade, lastFailedAt := now, errorMessage := job.errorMessage)])
  }

  /** None when the primary key is taken. */
  function InsertEntry(db: Db, id: string, job: FailedJob, now: int): Option<Db> {
    if id in db.entries then None
    else Some(db.(entries := db.entries[id := Entry(
      job.tenantId, job.jobId, job.queueName, job.jobType, job.payload, job.errorMessage, job.attemptsMade,
      now, now, Failed, None)]))
  }

  function SelectFailed(db: Db, id: string): Option<Entry> {
    if id in db.entries && db.entries[id].status == Failed then Some(db.entries[id]) else None
  }

  /** None when the primary key is taken. */
  function InsertJob(db: Db, jobId: string, entry: Entry): Option<Db> {
    if jobId in db.jobs then None
    else Some(db.(jobs := db.jobs[jobId := Job(entry.tenantId, entry.jobType, entry.payload)]))
  }

  /** `update ... set status = 'requeued' where id`: the status it overwrites is not looked at. */
  function MarkRequeued(db: Db, id: string, userId: string): Db {
    if id !in db.entries then db
    else db.(entries := db.entries[id := db.entries[id].(status := Requeued, handledBy := Some(userId))])
  }

  /** `update ... set status = 'discarded' where id and status = 'failed'` */
  function MarkDiscarded(db: Db, id: string, userId: string): Db {
    if SelectFailed(db, id).None? then db
    else db.(entries := db.entries[id := db.entries[id].(status := Discarded, handledBy := Some(userId))])
  }

  datatype Filters = Filters(
    queueName: Option<string>,
    jobType: Option<string>,
    olderThan: Option<int>,
    newerThan: Option<int>,
    limit: Option<int>)

  predicate Asked(filter: Option<string>, value: string) {
    filter.Some? && filter.value != "" ==> filter.value == value
  }

  predicate Matches(entry: Entry, tenantId: string, f: Filters) {
    && entry.tenantId == tenantId
    && entry.status == Failed
    && Asked(f.queueName, entry.queueName)
    && Asked(f.jobType, entry.jobType)
    && (f.olderThan.Some? ==> entry.lastFailedAt < f.olderThan.value)
    && (f.newerThan.Some? ==> entry.lastFailedAt > f.newerThan.value)
  }

  /** `filters.limit || 100` */
  function LimitOf(f: Filters): int {
    if f.limit.GetOr(0) == 0 then 100 else f.limit.value
  }

  function MatchingIds(db: Db, tenantId: string, f: Filters): set<string> {
    set id | id in db.entries && Matches(db.entries[id], tenantId, f)
  }

  // ---------- Calls that run uninterrupted ----------

  /** Which statement of a call throws, if any; the call's own catch then ends it. */
  datatype Fault = NoFault | OnSelect | OnInsert | OnUpdate

  const NOT_FOUND := "DLQ entry not found or already processed"

  function JobOf(entry: Entry): Job {
    Job(entry.tenantId, entry.jobType, entry.payload)
  }

  /** The jobs that were inserted for an entry; `sources` has the entry of each such job. */
  function JobsFor(sources: map<string, string>, id: string): set<string> {
    set j | j in sources && sources[j] == id
  }

  ghost predicate HasJob(sources: map<string, string>, id: string) {
    exists j :: j in sources && sources[j] == id
  }

  /** Every job that a requeue inserted is a copy of the job of its entry. */
  ghost predicate JobsCopied(db: Db, sources: map<string, string>) {
    forall j :: j in sources ==>
      j in db.jobs && sources[j] in db.entries && db.jobs[j] == JobOf(db.entries[sources[j]])
  }

  /**
   * An entry has one job for each lost update, which threw after the insert of the job, and one
   * more if it is requeued.
   */
  ghost predicate Ledger(db: Db, sources: map<string, string>, lostUpdates: multiset<string>) {
    && JobsCopied(db, sources)
    && (forall id :: id in lostUpdates ==> id in db.entries)
    && forall id :: id in db.entries ==>
         |JobsFor(sources, id)| == lostUpdates[id] + if db.entries[id].status == Requeued then 1 else 0
  }

  /** Each requeued entry has exactly one job, no other entry has any. */
  ghost predicate OneJobEach(db: Db, sources: map<string, string>) {
    && (forall j, k :: j in sources && k in sources && sources[j] == sources[k] ==> j == k)
    && forall id :: id in db.entries ==> (db.entries[id].status == Requeued <==> HasJob(sources, id))
  }

  predicate SameJob(a: Entry, b: Entry) {
    a.tenantId == b.tenantId && a.originalJobId == b.originalJobId
  }

  /** At most one entry for a tenant and original job. */
  ghost predicate OneEntryEach(db: Db) {
    forall a, b :: a in db.entries && b in db.entries && SameJob(db.entries[a], db.entries[b]) ==> a == b
  }

  class DeadLetterQueue {
    var db: Db
    /** For each job that a requeue inserted, the entry it was inserted for. */
    ghost var sources: map<string, string>
    /** The entries whose update threw after the insert of a job for them, as often as it did. */
    ghost var lostUpdates: multiset<string>

    ghost predicate Valid()
      reads this
    {
      Ledger(db, sources, lostUpdates) && OneEntryEach(db)
    }

    constructor (jobs: map<string, Job>)
      ensures Valid() && db == Db(map[], jobs) && lostUpdates == multiset{}
    {
      db, sources, lostUpdates := Db(map[], jobs), map[], multiset{};
    }

    /** `newId` is the generated id, which is used only for a new entry. */
    method MoveToDeadLetterQueue(job: FailedJob, newId: string, now: int, fault: Fault)
      requires Valid()
      modifies this`db
      ensures Valid() && db.jobs == old(db.jobs)
      ensures var found := EntriesOf(old(db), job);
        if job.tenantId == "" || fault.OnSelect? then db == old(db)
        else if found != {} then
          exists id :: found == {id} && db == if fault.OnUpdate? then old(db) else RecordFailure(old(db), id, job, now)
        else if fault.OnInsert? || newId in old(db.entries) then db == old(db)
        else InsertEntry(old(db), newId, job, now) == Some(db)
    {
      if job.tenantId == "" || fault.OnSelect? {
        return;
      }
      var existing := EntriesOf(db, job);
      if existing != {} {
        var id :| id in existing;
        assert existing == {id};
        if !fault.OnUpdate? {
          FailureKeepsLedger(db, sources, lostUpdates, id, job, now);
          db := RecordFailure(db, id, job, now);
        }
      } else if !fault.OnInsert? {
        var inserted := InsertEntry(db, newId, job, now);
        if inserted.Some? {
          EntryKeepsLedger(db, sources, lostUpdates, newId, job, now);
          EntryStaysAlone(db, newId, job, now);
          db := inserted.value;
        }
      }
    }

    /**
     * When only the update throws, the job stays and so does the status of the entry. `message` is
     * that of the error thrown, if one is.
     */
    method RequeueFromDeadLetterQueue(
      dlqId: string, userId: string, newJobId: string, fault: Fault, message: string)
      returns (success: bool, error: string)
      requires Valid()
      modifies this
      ensures Valid()
      ensures var entry := SelectFailed(old(db), dlqId);
        var inserts := entry.Some? && newJobId !in old(db.jobs) && !fault.OnSelect? && !fault.OnInsert?;
        && (success <==> inserts && !fault.OnUpdate?)
        && (!success ==> error == if entry.None? && !fault.OnSelect? then NOT_FOUND else message)
        && (if !inserts then db == old(db) && sources == old(sources)
            else
              var inserted := InsertJob(old(db), newJobId, entry.value).value;
              && db == (if success then MarkRequeued(inserted, dlqId, userId) else inserted)
              && sources == old(sources)[newJobId := dlqId])
        && lostUpdates == old(lostUpdates) + if inserts && !success then multiset{dlqId} else multiset{}
    {
      if fault.OnSelect? {
        return false, message;
      }
      var dlqEntry := SelectFailed(db, dlqId);
      if dlqEntry.None? {
        return false, NOT_FOUND;
      }
      var inserted := InsertJob(db, newJobId, dlqEntry.value);
      if fault.OnInsert? || inserted.None? {
        return false, message;
      }
      InsertKeepsLedger(db, sources, lostUpdates, dlqId, newJobId);
      sources := sources[newJobId := dlqId];
      db := inserted.value;
      if fault.OnUpdate? {
        lostUpdates := lostUpdates + multiset{dlqId};
        return false, message;
      }
      MarkKeepsLedger(db, sources, lostUpdates, dlqId, userId);
      db := MarkRequeued(db, dlqId, userId);
      return true, "";
    }

    method DiscardFromDeadLetterQueue(dlqId: string, userId: string, fault: Fault) returns (success: bool)
      requires Valid()
      modifies this`db
      ensures Valid()
      ensures success <==> SelectFailed(old(db), dlqId).Some? && !fault.OnUpdate?
      ensures db == if success then MarkDiscarded(old(db), dlqId, userId) else old(db)
    {
      success := SelectFailed(db, dlqId).Some? && !fault.OnUpdate?;
      if success {
        DiscardKeepsLedger(db, sources, lostUpdates, dlqId, userId);
        db := MarkDiscarded(db, dlqId, userId);
      }
    }

    /**
     * `nextId` generates the job ids, `faults` and `messages` say what fails and how; the n-th
     * selected entry gets the n-th of each. A failure without a message is in no list: those
     * entries are `silent`.
     */
    method BulkRequeueFromDeadLetterQueue(
      filters: Filters, tenantId: string, userId: string, nextId: nat -> string,
      selectFails: bool, faults: nat -> Fault, messages: nat -> string)
      returns (success: bool, requeuedCount: nat, failures: seq<string>, ghost silent: seq<string>)
      requires Valid()
      modifies this
      ensures Valid()
      ensures success <==> !selectFails && LimitOf(filters) >= 0
      ensures !success ==> db == old(db) && requeuedCount == 0
      ensures success ==>
        requeuedCount + |failures| + |silent| == Smaller(|MatchingIds(old(db), tenantId, filters)|, LimitOf(filters))
      ensures (forall n :: messages(n) != "") ==> silent == []
      ensures old(lostUpdates) <= lostUpdates <= old(lostUpdates) + multiset(failures) + multiset(silent)
      ensures |db.jobs| == |old(db.jobs)| + requeuedCount + |lostUpdates| - |old(lostUpdates)|
      ensures |RequeuedIds(db)| == |RequeuedIds(old(db))| + requeuedCount
      ensures RequeuedIds(db) >= RequeuedIds(old(db))
      ensures RequeuedIds(db) - RequeuedIds(old(db)) <= MatchingIds(old(db), tenantId, filters)
    {
      hide Ledger, OneEntryEach, Matches, MarkRequeued, InsertJob, SelectFailed, RequeuedIds, MatchingIds, Progress,
        LimitOf;
      failures, requeuedCount, silent := [], 0, [];
      if selectFails || LimitOf(filters) < 0 {
        return false, 0, [], [];
      }
      ghost var matching := MatchingIds(db, tenantId, filters);
      var rest := MatchingIds(db, tenantId, filters);
      ghost var failed: multiset<string> := multiset{};
      var n := 0;
      NoProgress(db, lostUpdates, matching);
      while rest != {} && n < LimitOf(filters)
        invariant Valid()
        invariant rest <= matching && |rest| + n == |matching| && 0 <= n <= LimitOf(filters)
        invariant requeuedCount + |failures| + |silent| == n
        invariant (forall k :: messages(k) != "") ==> silent == []
        invariant failed == multiset(failures) + multiset(silent)
        invariant Progress(old(db), old(lostUpdates), db, lostUpdates, matching, requeuedCount, failed)
        decreases |rest|
      {
        var id :| id in rest;
        ghost var before, lostBefore := db, lostUpdates;
        var requeued, error := RequeueFromDeadLetterQueue(id, userId, nextId(n), faults(n), messages(n));
        assert Outcome(before, lostBefore, db, lostUpdates, id, requeued) by {
          RequeuedStep(before, id, userId, nextId(n));
        }
        ProgressStep(old(db), old(lostUpdates), before, lostBefore, db, lostUpdates,
                     matching, requeuedCount, failed, id, requeued);
        if requeued {
          requeuedCount := requeuedCount + 1;
        } else {
          failed := failed + multiset{id};
          if error != "" {
            failures := failures + [id];
          } else {
            silent := silent + [id];
          }
        }
        rest := rest - {id};
        n := n + 1;
      }
      ProgressMeaning(old(db), old(lostUpdates), db, lostUpdates, matching, requeuedCount, failed);
      success := true;
    }
  }

  // ---------- What the calls keep ----------

  lemma FailureKeepsLedger(
    db: Db, sources: map<string, string>, lost: multiset<string>, id: string, job: FailedJob, now: int)
    requires Ledger(db, sources, lost) && OneEntryEach(db)
    ensures var after := RecordFailure(db, id, job, now); Ledger(after, sources, lost) && OneEntryEach(after)
  {
    hide JobsFor;
  }

  lemma EntryKeepsLedger(
    db: Db, sources: map<string, string>, lost: multiset<string>, id: string, job: FailedJob, now: int)
    requires Ledger(db, sources, lost) && id !in db.entries
    ensures Ledger(InsertEntry(db, id, job, now).value, sources, lost)
  {
    assert lost[id] == 0 && JobsFor(sources, id) == {};
    hide JobsFor;
  }

  lemma EntryStaysAlone(db: Db, id: string, job: FailedJob, now: int)
    requires OneEntryEach(db) && id !in db.entries && EntriesOf(db, job) == {}
    ensures OneEntryEach(InsertEntry(db, id, job, now).value)
  {
    assert forall e :: e in db.entries ==> e !in EntriesOf(db, job);
  }

  lemma DiscardKeepsLedger(
    db: Db, sources: map<string, string>, lost: multiset<string>, id: string, userId: string)
    requires Ledger(db, sources, lost) && OneEntryEach(db)
    ensures var after := MarkDiscarded(db, id, userId); Ledger(after, sources, lost) && OneEntryEach(after)
  {
    hide JobsFor;
  }

  lemma JobsForStep(sources: map<string, string>, job: string, dlqId: string)
    requires job !in sources
    ensures forall id :: |JobsFor(sources[job := dlqId], id)| == |JobsFor(sources, id)| + if id == dlqId then 1 else 0
  {
    var after := sources[job := dlqId];
    forall id ensures JobsFor(after, id) == JobsFor(sources, id) + if id == dlqId then {job} else {} {
    }
  }

  /** With its job inserted, an entry counts as one whose update is lost... */
  lemma InsertKeepsLedger(db: Db, sources: map<string, string>, lost: multiset<string>, id: string, jobId: string)
    requires Ledger(db, sources, lost) && OneEntryEach(db)
    requires SelectFailed(db, id).Some? && jobId !in db.jobs
    ensures var inserted := InsertJob(db, jobId, db.entries[id]).value;
      Ledger(inserted, sources[jobId := id], lost + multiset{id}) && OneEntryEach(inserted)
  {
    hide JobsFor;
    JobsForStep(sources, jobId, id);
  }

  /** ...until the update goes through. */
  lemma MarkKeepsLedger(db: Db, sources: map<string, string>, lost: multiset<string>, id: string, userId: string)
    requires Ledger(db, sources, lost + multiset{id}) && OneEntryEach(db) && SelectFailed(db, id).Some?
    ensures var marked := MarkRequeued(db, id, userId); Ledger(marked, sources, lost) && OneEntryEach(marked)
  {
    hide JobsFor;
  }

  /** As long as no update is lost after an insert, and only then, requeued entries have one job each. */
  lemma OneJobUnlessUpdateLost(db: Db, sources: map<string, string>, lost: multiset<string>)
    requires Ledger(db, sources, lost)
    ensures OneJobEach(db, sources) <==> lost == multiset{}
  {
    forall id ensures HasJob(sources, id) <==> |JobsFor(sources, id)| > 0 {
      if HasJob(sources, id) {
        var j :| j in sources && sources[j] == id;
        assert j in JobsFor(sources, id);
      } else {
        assert JobsFor(sources, id) == {};
      }
    }
    if lost == multiset{} {
      forall j, k | j in sources && k in sources && sources[j] == sources[k] ensures j == k {
        TwoMembers(JobsFor(sources, sources[j]), j, k);
      }
    } else {
      var id :| id in lost;
      var j :| j in JobsFor(sources, id);
      if db.entries[id].status == Requeued {
        assert |JobsFor(sources, id) - {j}| > 0;
        var k :| k in JobsFor(sources, id) - {j};
      }
    }
  }

  lemma TwoMembers(s: set<string>, a: string, b: string)
    requires a in s && b in s
    ensures a != b ==> |s| >= 2
  {
    if a != b {
      assert s == (s - {a, b}) + {a, b};
    }
  }

  function Smaller(a: int, b: int): int {
    if a <= b then a else b
  }

  function RequeuedIds(db: Db): set<string> {
    set id | id in db.entries && db.entries[id].status == Requeued
  }

  /** What a bulk requeue has done after `count` successes and for the given failed entries. */
  ghost predicate Progress(db0: Db, lost0: multiset<string>, db: Db, lost: multiset<string>,
                           matching: set<string>, count: nat, failed: multiset<string>)
  {
    && lost0 <= lost <= lost0 + failed
    && |db.jobs| == |db0.jobs| + count + |lost| - |lost0|
    && |RequeuedIds(db)| == |RequeuedIds(db0)| + count
    && RequeuedIds(db0) <= RequeuedIds(db) <= RequeuedIds(db0) + matching
  }

  lemma NoProgress(db: Db, lost: multiset<string>, matching: set<string>)
    ensures Progress(db, lost, db, lost, matching, 0, multiset{})
  {
  }

  lemma ProgressMeaning(db0: Db, lost0: multiset<string>, db: Db, lost: multiset<string>,
                        matching: set<string>, count: nat, failed: multiset<string>)
    requires Progress(db0, lost0, db, lost, matching, count, failed)
    ensures lost0 <= lost <= lost0 + failed
    ensures |db.jobs| == |db0.jobs| + count + |lost| - |lost0|
    ensures |RequeuedIds(db)| == |RequeuedIds(db0)| + count
    ensures RequeuedIds(db) >= RequeuedIds(db0) && RequeuedIds(db) - RequeuedIds(db0) <= matching
  {
    hide RequeuedIds;
  }

  /** What one requeue does to the entries, the jobs and the lost updates. */
  ghost predicate Outcome(
    before: Db, lostBefore: multiset<string>, db: Db, lost: multiset<string>, id: string, requeued: bool)
  {
    || (&& requeued && lost == lostBefore && |db.jobs| == |before.jobs| + 1
        && RequeuedIds(db) == RequeuedIds(before) + {id} && id !in RequeuedIds(before))
    || (&& !requeued && lost == lostBefore + multiset{id} && |db.jobs| == |before.jobs| + 1
        && RequeuedIds(db) == RequeuedIds(before))
    || (!requeued && lost == lostBefore && db == before)
  }

  lemma ProgressStep(db0: Db, lost0: multiset<string>, before: Db, lostBefore: multiset<string>,
                     db: Db, lost: multiset<string>,
                     matching: set<string>, count: nat, failed: multiset<string>, id: string, requeued: bool)
    requires Progress(db0, lost0, before, lostBefore, matching, count, failed) && id in matching
    requires Outcome(before, lostBefore, db, lost, id, requeued)
    ensures if requeued then Progress(db0, lost0, db, lost, matching, count + 1, failed)
            else Progress(db0, lost0, db, lost, matching, count, failed + multiset{id})
  {
    hide RequeuedIds;
  }

  lemma RequeuedStep(db: Db, id: string, userId: string, jobId: string)
    ensures SelectFailed(db, id).Some? && jobId !in db.jobs ==>
      var inserted := InsertJob(db, jobId, SelectFailed(db, id).value).value;
      var marked := MarkRequeued(inserted, id, userId);
      && RequeuedIds(inserted) == RequeuedIds(db)
      && RequeuedIds(marked) == RequeuedIds(db) + {id} && id !in RequeuedIds(db)
      && |inserted.jobs| == |marked.jobs| == |db.jobs| + 1
  {
    if SelectFailed(db, id).Some? && jobId !in db.jobs {
      var inserted := InsertJob(db, jobId, SelectFailed(db, id).value).value;
      assert inserted.jobs.Keys == db.jobs.Keys + {jobId};
    }
  }

  // ---------- What the statements write, and whom they select ----------

  /** Everything but one entry is as before. */
  ghost predicate OnlyEntry(before: Db, after: Db, id: string) {
    && after.jobs == before.jobs
    && id in after.entries
    && after.entries.Keys == before.entries.Keys + {id}
    && forall other :: other in before.entries && other != id ==> after.entries[other] == before.entries[other]
  }

  /** The same failure of the same job, whatever was done about it. */
  predicate SameFailure(a: Entry, b: Entry) {
    && SameJob(a, b) && a.queueName == b.queueName && a.jobType == b.jobType && a.payload == b.payload
    && a.firstFailedAt == b.firstFailedAt
  }

  /** A repeated failure brings the attempts, the error and the time of the last one up to date. */
  lemma RecordsFailure(db: Db, id: string, job: FailedJob, now: int)
    requires id in db.entries
    ensures var after := RecordFailure(db, id, job, now);
      && OnlyEntry(db, after, id)
      && var (a, b) := (after.entries[id], db.entries[id]);
         && SameFailure(a, b) && a.status == b.status && a.handledBy == b.handledBy
         && a.attemptCount == job.attemptsMade && a.errorMessage == job.errorMessage && a.lastFailedAt == now
  {
  }

  /** A new entry copies the job, has failed first and last now, and is handled by nobody. */
  lemma InsertsEntry(db: Db, id: string, job: FailedJob, now: int)
    ensures InsertEntry(db, id, job, now).None? <==> id in db.entries
    ensures id !in db.entries ==>
      var after := InsertEntry(db, id, job, now).value;
      && OnlyEntry(db, after, id)
      && var e := after.entries[id];
         && e.tenantId == job.tenantId && e.originalJobId == job.jobId && e.queueName == job.queueName
         && e.jobType == job.jobType && e.payload == job.payload && e.errorMessage == job.errorMessage
         && e.attemptCount == job.attemptsMade && e.firstFailedAt == e.lastFailedAt == now
         && e.status == Failed && e.handledBy.None?
  {
  }

  /** A requeue overwrites whatever status there is, a discard only a failed one; both note who did it. */
  lemma MarksEntry(db: Db, id: string, userId: string)
    requires id in db.entries
    ensures var (b, requeued, discarded) :=
        (db.entries[id], MarkRequeued(db, id, userId), MarkDiscarded(db, id, userId));
      && OnlyEntry(db, requeued, id) && OnlyEntry(db, discarded, id)
      && (var a := requeued.entries[id];
          && SameFailure(a, b) && a.attemptCount == b.attemptCount && a.errorMessage == b.errorMessage
          && a.lastFailedAt == b.lastFailedAt && a.status == Requeued && a.handledBy == Some(userId))
      && (if b.status != Failed then discarded == db
          else
            var a := discarded.entries[id];
            && SameFailure(a, b) && a.attemptCount == b.attemptCount && a.errorMessage == b.errorMessage
            && a.lastFailedAt == b.lastFailedAt && a.status == Discarded && a.handledBy == Some(userId))
  {
  }

  /** A new job has the tenant, type and payload of the entry, and nothing else changes. */
  lemma InsertsJob(db: Db, jobId: string, entry: Entry)
    ensures InsertJob(db, jobId, entry).None? <==> jobId in db.jobs
    ensures jobId !in db.jobs ==>
      var after := InsertJob(db, jobId, entry).value;
      && after.entries == db.entries
      && after.jobs.Keys == db.jobs.Keys + {jobId}
      && (forall j :: j in db.jobs ==> after.jobs[j] == db.jobs[j])
      && after.jobs[jobId].tenantId == entry.tenantId && after.jobs[jobId].jobType == entry.jobType
      && after.jobs[jobId].payload == entry.payload
  {
  }

  /** A select by job finds the entries of its tenant and id, a select by entry only a failed one. */
  lemma Selects(db: Db, job: FailedJob, id: string)
    ensures id in EntriesOf(db, job) <==>
      id in db.entries && (db.entries[id].tenantId, db.entries[id].originalJobId) == (job.tenantId, job.jobId)
    ensures SelectFailed(db, id) ==
      if id !in db.entries || !db.entries[id].status.Failed? then None else Some(db.entries[id])
  {
  }

  /** A filter that is missing or empty lets everything pass. */
  predicate Lets(filter: Option<string>, value: string) {
    match filter
    case None => true
    case Some(asked) => asked in ["", value]
  }

  /**
   * A bulk requeue goes for the failed entries of the tenant that pass the two names and failed last
   * strictly between the two times, up to the limit, which is 100 when it is missing or zero.
   */
  lemma BulkSelects(db: Db, tenantId: string, f: Filters, id: string)
    ensures id in MatchingIds(db, tenantId, f) <==>
      && id in db.entries
      && var e := db.entries[id];
         && e.tenantId == tenantId && !e.status.Requeued? && !e.status.Discarded?
         && Lets(f.queueName, e.queueName) && Lets(f.jobType, e.jobType)
         && (f.olderThan.None? || f.olderThan.value > e.lastFailedAt)
         && (f.newerThan.None? || f.newerThan.value < e.lastFailedAt)
    ensures f.limit.None? || f.limit.value == 0 ==> LimitOf(f) == 100
    ensures f.limit.Some? && f.limit.value != 0 ==> LimitOf(f) == f.limit.value
  {
  }
}
