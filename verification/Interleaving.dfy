/**
 * All the ways in which the statements of concurrent dead-letter calls interleave and fail
 * (apps/worker/src/dlq-handler.ts), and what that does to their promises.
 */
module Interleaving {
  import opened Wrappers
  import opened DeadLetter

  // ---------- Calls split at their statements ----------

  datatype Call =
    | MoveSelect(job: FailedJob)
    | MoveUpdate(job: FailedJob, existingId: string)
    | MoveInsert(job: FailedJob)
    | RequeueSelect(dlqId: string)
    | RequeueInsert(dlqId: string, entry: Entry)
    | RequeueMark(dlqId: string, jobId: string)
    | DiscardUpdate(dlqId: string)
    | BulkSelect(tenantId: string, filters: Filters)
    | Finished

  /** A call in progress; `rest` are the entries a bulk requeue still has to go through. */
  datatype Process = Process(call: Call, rest: seq<string>, userId: string)

  /** The tables, the calls in progress, and for each job inserted by a requeue its entry. */
  datatype System = System(db: Db, calls: map<nat, Process>, sources: map<string, string>)

  /**
   * One thing that happens: a call begins, a call performs its next statement, or a statement
   * fails and ends the call. `id` is a generated id or the row a select returns, `rows` what a
   * bulk select returns.
   */
  datatype Action =
    | Begin(pid: nat, process: Process)
    | Perform(pid: nat, id: string, rows: seq<string>, now: int)
    | Break(pid: nat)

  predicate IsFirst(call: Call) {
    call.MoveSelect? || call.RequeueSelect? || call.DiscardUpdate? || call.BulkSelect?
  }

  /** What the next statement of a call does. An impossible choice leaves everything as it is. */
  function Statement(s: System, p: Process, id: string, rows: seq<string>, now: int): (System, Process) {
    match p.call
    case MoveSelect(job) =>
      if job.tenantId == "" then (s, p.(call := Finished))
      else if id in EntriesOf(s.db, job) then (s, p.(call := MoveUpdate(job, id)))
      else if EntriesOf(s.db, job) == {} then (s, p.(call := MoveInsert(job)))
      else (s, p)
    case MoveUpdate(job, existingId) =>
      (s.(db := RecordFailure(s.db, existingId, job, now)), p.(call := Finished))
    case MoveInsert(job) =>
      var inserted := InsertEntry(s.db, id, job, now);
      (if inserted.Some? then s.(db := inserted.value) else s, p.(call := Finished))
    case RequeueSelect(dlqId) =>
      var entry := SelectFailed(s.db, dlqId);
      (s, p.(call := if entry.Some? then RequeueInsert(dlqId, entry.value) else Finished))
    case RequeueInsert(dlqId, entry) =>
      var inserted := InsertJob(s.db, id, entry);
      if inserted.Some?
      then (s.(db := inserted.value, sources := s.sources[id := dlqId]), p.(call := RequeueMark(dlqId, id)))
      else (s, p.(call := Finished))
    case RequeueMark(dlqId, jobId) =>
      (s.(db := MarkRequeued(s.db, dlqId, p.userId)), p.(call := Finished))
    case DiscardUpdate(dlqId) =>
      (s.(db := MarkDiscarded(s.db, dlqId, p.userId)), p.(call := Finished))
    case BulkSelect(tenantId, filters) =>
      if |rows| <= LimitOf(filters) && forall i :: 0 <= i < |rows| ==> rows[i] in MatchingIds(s.db, tenantId, filters)
      then (s, p.(call := Finished, rest := rows))
      else (s, p)
    case Finished =>
      (s, if p.rest == [] then p else p.(call := RequeueSelect(p.rest[0]), rest := p.rest[1..]))
  }

  function Next(s: System, a: Action): System {
    match a
    case Begin(pid, process) =>
      if pid !in s.calls && IsFirst(process.call) && process.rest == [] then s.(calls := s.calls[pid := process]) else s
    case Perform(pid, id, rows, now) =>
      if pid !in s.calls then s
      else
        var (after, process) := Statement(s, s.calls[pid], id, rows, now);
        after.(calls := after.calls[pid := process])
    case Break(pid) =>
      if pid !in s.calls then s else s.(calls := s.calls[pid := s.calls[pid].(call := Finished)])
  }

  /** The state after a whole run. */
  function After(s: System, actions: seq<Action>): System {
    if actions == [] then s else Next(After(s, actions[..|actions| - 1]), actions[|actions| - 1])
  }

  lemma AfterPush(s: System, actions: seq<Action>, a: Action)
    ensures After(s, actions + [a]) == Next(After(s, actions), a)
  {
    assert (actions + [a])[..|actions|] == actions;
  }

  lemma {:induction false} AfterConcat(s: System, a: seq<Action>, b: seq<Action>)
    ensures After(s, a + b) == After(After(s, a), b)
  {
    hide Next;
    if b == [] {
      assert a + b == a;
    } else {
      var k := |b| - 1;
      assert a + b == (a + b[..k]) + [b[k]];
      AfterPush(s, a + b[..k], b[k]);
      AfterConcat(s, a, b[..k]);
    }
  }

  lemma AfterTwo(s: System, a: Action, b: Action)
    ensures After(s, [a]) == Next(s, a) && After(s, [a, b]) == Next(Next(s, a), b)
  {
    hide Next;
    AfterPush(s, [], a);
    AfterPush(s, [a], b);
    assert [] + [a] == [a] && [a] + [b] == [a, b];
  }

  ghost predicate Initial(s: System) {
    s.db.entries == map[] && s.calls == map[] && s.sources == map[]
  }

  // ---------- What every run keeps, however the calls interleave ----------

  ghost predicate SameOrigin(a: Entry, b: Entry) {
    a.tenantId == b.tenantId && a.originalJobId == b.originalJobId && JobOf(a) == JobOf(b)
  }

  /** What a call in progress relies on. */
  ghost predicate CallOk(s: System, call: Call) {
    match call
    case RequeueInsert(dlqId, entry) => dlqId in s.db.entries && SameOrigin(entry, s.db.entries[dlqId])
    case RequeueMark(dlqId, jobId) => dlqId in s.db.entries && jobId in s.sources && s.sources[jobId] == dlqId
    case _ => true
  }

  /** Every requeued entry has a job, and every job of the queue is a copy of its entry's job. */
  ghost predicate Inv(s: System) {
    && (forall id :: id in s.db.entries && s.db.entries[id].status == Requeued ==> HasJob(s.sources, id))
    && (forall j :: j in s.sources ==>
          j in s.db.jobs && s.sources[j] in s.db.entries && s.db.jobs[j] == JobOf(s.db.entries[s.sources[j]]))
    && forall pid :: pid in s.calls ==> CallOk(s, s.calls[pid].call)
  }

  /** How an entry may change: never back to failed, never away from requeued, never its origin. */
  ghost predicate Evolves(before: Entry, after: Entry) {
    && SameOrigin(before, after)
    && (before.status != Failed ==> after.status != Failed)
    && (before.status == Requeued ==> after.status == Requeued)
  }

  ghost predicate DbGrows(a: Db, b: Db) {
    && (forall id :: id in a.entries ==> id in b.entries && Evolves(a.entries[id], b.entries[id]))
    && (forall j :: j in a.jobs ==> j in b.jobs && b.jobs[j] == a.jobs[j])
  }

  ghost predicate Grows(s: System, t: System) {
    && DbGrows(s.db, t.db)
    && (forall j :: j in s.sources && j in s.db.jobs ==> j in t.sources && t.sources[j] == s.sources[j])
  }

  lemma UpdatesGrow(db: Db, id: string, job: FailedJob, now: int, userId: string)
    ensures DbGrows(db, db)
    ensures DbGrows(db, RecordFailure(db, id, job, now))
    ensures DbGrows(db, MarkRequeued(db, id, userId))
    ensures DbGrows(db, MarkDiscarded(db, id, userId))
  {
  }

  lemma InsertsGrow(db: Db, id: string, job: FailedJob, now: int, entry: Entry)
    ensures DbGrows(db, db)
    ensures InsertEntry(db, id, job, now).Some? ==> DbGrows(db, InsertEntry(db, id, job, now).value)
    ensures InsertJob(db, id, entry).Some? ==> DbGrows(db, InsertJob(db, id, entry).value) && id !in db.jobs
  {
  }

  lemma StatementGrows(s: System, p: Process, id: string, rows: seq<string>, now: int)
    ensures Grows(s, Statement(s, p, id, rows, now).0)
    ensures Statement(s, p, id, rows, now).0.calls == s.calls
  {
    hide DbGrows, RecordFailure, InsertEntry, InsertJob, MarkRequeued, MarkDiscarded, EntriesOf, MatchingIds;
    var noJob, noEntry := FailedJob("", "", "", "", "", "", 0), Entry("", "", "", "", "", "", 0, 0, 0, Failed, None);
    match p.call {
      case MoveUpdate(job, existingId) => UpdatesGrow(s.db, existingId, job, now, "");
      case MoveInsert(job) => InsertsGrow(s.db, id, job, now, noEntry);
      case RequeueInsert(dlqId, entry) => InsertsGrow(s.db, id, noJob, now, entry);
      case RequeueMark(dlqId, _) => UpdatesGrow(s.db, dlqId, noJob, now, p.userId);
      case DiscardUpdate(dlqId) => UpdatesGrow(s.db, dlqId, noJob, now, p.userId);
      case _ => UpdatesGrow(s.db, id, noJob, now, "");
    }
  }

  lemma NextGrows(s: System, a: Action)
    ensures Grows(s, Next(s, a))
  {
    hide Statement;
    if a.Perform? && a.pid in s.calls {
      StatementGrows(s, s.calls[a.pid], a.id, a.rows, a.now);
    }
  }

  /** Over any run, no entry returns to failed, and a requeued entry stays requeued. */
  lemma {:induction false} RunGrows(s: System, actions: seq<Action>)
    ensures Grows(s, After(s, actions))
  {
    hide Next;
    if actions != [] {
      var k := |actions| - 1;
      RunGrows(s, actions[..k]);
      NextGrows(After(s, actions[..k]), actions[k]);
    }
  }

  lemma GrowthKeepsCalls(s: System, t: System, call: Call)
    requires Inv(s) && Grows(s, t) && CallOk(s, call)
    ensures CallOk(t, call)
  {
  }

  /** What a statement has to show beyond growth. */
  ghost predicate Extends(s: System, t: System) {
    && (forall id :: id in t.db.entries && t.db.entries[id].status == Requeued ==>
          (id in s.db.entries && s.db.entries[id].status == Requeued) || HasJob(t.sources, id))
    && forall j :: j in t.sources ==>
         || (j in s.sources && s.sources[j] == t.sources[j])
         || (j in t.db.jobs && t.sources[j] in t.db.entries && t.db.jobs[j] == JobOf(t.db.entries[t.sources[j]]))
  }

  lemma ExtensionKeepsInv(s: System, t: System)
    requires Inv(s) && Grows(s, t) && Extends(s, t) && t.calls == s.calls
    ensures Inv(t)
  {
    forall pid | pid in t.calls ensures CallOk(t, t.calls[pid].call) {
      GrowthKeepsCalls(s, t, s.calls[pid].call);
    }
    forall id | id in s.db.entries && s.db.entries[id].status == Requeued ensures HasJob(t.sources, id) {
      var j :| j in s.sources && s.sources[j] == id;
      assert j in t.sources && t.sources[j] == id;
    }
  }

  lemma InsertExtends(s: System, p: Process, id: string)
    requires Inv(s) && CallOk(s, p.call) && p.call.RequeueInsert?
    ensures var (t, q) := Statement(s, p, id, [], 0); Extends(s, t) && CallOk(t, q.call)
  {
    hide HasJob;
  }

  lemma MarkExtends(s: System, p: Process, id: string)
    requires Inv(s) && CallOk(s, p.call) && p.call.RequeueMark?
    ensures var (t, q) := Statement(s, p, id, [], 0); Extends(s, t) && CallOk(t, q.call)
  {
    assert HasJob(s.sources, p.call.dlqId);
    hide HasJob;
  }

  lemma OthersExtend(s: System, p: Process, id: string, rows: seq<string>, now: int)
    requires !p.call.RequeueInsert? && !p.call.RequeueMark?
    ensures var (t, q) := Statement(s, p, id, rows, now); Extends(s, t) && CallOk(t, q.call)
  {
    hide EntriesOf, MatchingIds, HasJob;
  }

  lemma StatementExtends(s: System, p: Process, id: string, rows: seq<string>, now: int)
    requires Inv(s) && CallOk(s, p.call)
    ensures var (t, q) := Statement(s, p, id, rows, now); Extends(s, t) && CallOk(t, q.call)
  {
    if p.call.RequeueInsert? {
      InsertExtends(s, p, id);
      assert Statement(s, p, id, rows, now) == Statement(s, p, id, [], 0);
    } else if p.call.RequeueMark? {
      MarkExtends(s, p, id);
      assert Statement(s, p, id, rows, now) == Statement(s, p, id, [], 0);
    } else {
      OthersExtend(s, p, id, rows, now);
    }
  }

  lemma StatementKeepsInv(s: System, p: Process, id: string, rows: seq<string>, now: int)
    requires Inv(s) && CallOk(s, p.call)
    ensures var (t, q) := Statement(s, p, id, rows, now); Inv(t) && CallOk(t, q.call)
  {
    hide Statement, Inv, Extends, Grows;
    StatementGrows(s, p, id, rows, now);
    StatementExtends(s, p, id, rows, now);
    ExtensionKeepsInv(s, Statement(s, p, id, rows, now).0);
  }

  lemma NextKeepsInv(s: System, a: Action)
    requires Inv(s)
    ensures Inv(Next(s, a))
  {
    hide Statement;
    if a.Perform? && a.pid in s.calls {
      StatementKeepsInv(s, s.calls[a.pid], a.id, a.rows, a.now);
    }
  }

  lemma {:induction false} RunKeepsInv(s: System, actions: seq<Action>)
    requires Inv(s)
    ensures Inv(After(s, actions))
  {
    hide Next, Inv;
    if actions != [] {
      var k := |actions| - 1;
      RunKeepsInv(s, actions[..k]);
      NextKeepsInv(After(s, actions[..k]), actions[k]);
    }
  }

  /** However calls interleave and fail, an entry marked requeued has a job that copies it. */
  lemma RequeuedHasJob(s: System, actions: seq<Action>, id: string)
    requires Initial(s)
    ensures var t := After(s, actions);
      id in t.db.entries && t.db.entries[id].status == Requeued ==>
        exists j :: j in t.sources && t.sources[j] == id && j in t.db.jobs && t.db.jobs[j] == JobOf(t.db.entries[id])
  {
    hide After;
    RunKeepsInv(s, actions);
    var t := After(s, actions);
    if id in t.db.entries && t.db.entries[id].status == Requeued {
      assert HasJob(t.sources, id);
      var j :| j in t.sources && t.sources[j] == id;
    }
  }

  // ---------- When a discarded entry stays discarded ----------

  /** A requeue of the entry is past its select. */
  ghost predicate Pending(s: System, id: string) {
    exists pid :: pid in s.calls && Holds(s.calls[pid].call, id)
  }

  predicate Holds(call: Call, id: string) {
    (call.RequeueInsert? || call.RequeueMark?) && call.dlqId == id
  }

  ghost predicate Settled(s: System, id: string, status: EntryStatus) {
    id in s.db.entries && s.db.entries[id].status == status && status != Failed && !Pending(s, id)
  }

  lemma StatementSettled(s: System, p: Process, choice: string, rows: seq<string>, now: int, id: string)
    requires id in s.db.entries && s.db.entries[id].status != Failed && !Holds(p.call, id)
    ensures var (t, q) := Statement(s, p, choice, rows, now);
      !Holds(q.call, id) && id in t.db.entries && t.db.entries[id].status == s.db.entries[id].status
  {
  }

  lemma NextSettled(s: System, a: Action, id: string, status: EntryStatus)
    requires Settled(s, id, status)
    ensures Settled(Next(s, a), id, status)
  {
    hide Statement;
    if a.Perform? && a.pid in s.calls {
      assert !Holds(s.calls[a.pid].call, id);
      StatementGrows(s, s.calls[a.pid], a.id, a.rows, a.now);
      StatementSettled(s, s.calls[a.pid], a.id, a.rows, a.now, id);
    }
  }

  /** A handled entry with no requeue past its select keeps its status for good. */
  lemma {:induction false} SettledForGood(s: System, actions: seq<Action>, id: string, status: EntryStatus)
    requires Settled(s, id, status)
    ensures Settled(After(s, actions), id, status)
  {
    hide Next, Settled;
    if actions != [] {
      var k := |actions| - 1;
      SettledForGood(s, actions[..k], id, status);
      NextSettled(After(s, actions[..k]), actions[k], id, status);
    }
  }

  /** A pending requeue whose insert goes through takes the entry away from discarded. */
  lemma PendingOverwrites(s: System, id: string, pid: nat, freshId: string, now: int)
    requires Inv(s) && id in s.db.entries && s.db.entries[id].status == Discarded
    requires pid in s.calls && Holds(s.calls[pid].call, id) && freshId !in s.db.jobs
    ensures exists actions :: var t := After(s, actions);
      id in t.db.entries && t.db.entries[id].status == Requeued
  {
    var step := Perform(pid, freshId, [], now);
    var once := Next(s, step);
    var twice := Next(once, step);
    AfterTwo(s, step, step);
    if s.calls[pid].call.RequeueMark? {
      assert After(s, [step]).db.entries[id].status == Requeued;
    } else {
      assert After(s, [step, step]).db.entries[id].status == Requeued;
    }
  }

  /**
   * So a discarded entry can be requeued later exactly when a requeue of it is past its select:
   * the guard of the select is not repeated in the update.
   */
  lemma DiscardIsFinalUnlessPending(s: System, id: string)
    requires Inv(s) && id in s.db.entries && s.db.entries[id].status == Discarded
    ensures (exists actions :: id in After(s, actions).db.entries &&
                               After(s, actions).db.entries[id].status == Requeued) <==> Pending(s, id)
  {
    if Pending(s, id) {
      var pid :| pid in s.calls && Holds(s.calls[pid].call, id);
      var freshId := FreshId(s.db.jobs.Keys);
      PendingOverwrites(s, id, pid, freshId, 0);
    } else {
      forall actions ensures Settled(After(s, actions), id, Discarded) {
        SettledForGood(s, actions, id, Discarded);
      }
    }
  }

  // ---------- When an entry can get another job ----------

  /** Some id is always unused. */
  lemma FreshId(used: set<string>) returns (id: string)
    ensures id !in used
  {
    var n := LongerThan(used);
    id := seq(n, i => 'x');
  }

  lemma {:induction false} LongerThan(used: set<string>) returns (n: nat)
    ensures forall id :: id in used ==> |id| < n
  {
    if used == {} {
      n := 0;
    } else {
      var id :| id in used;
      n := LongerThan(used - {id});
      n := if |id| < n then n else |id| + 1;
    }
  }

  lemma {:induction false} FreshPid(used: set<nat>) returns (pid: nat)
    ensures forall p :: p in used ==> p < pid
  {
    if used == {} {
      pid := 0;
    } else {
      var p :| p in used;
      pid := FreshPid(used - {p});
      pid := if p < pid then pid else p + 1;
      forall q | q in used ensures q < pid {
        assert q == p || q in used - {p};
      }
    }
  }

  /** A requeue of the entry has selected it and not yet inserted its job. */
  ghost predicate Requeueing(s: System, pid: nat, id: string) {
    pid in s.calls && s.calls[pid].call.RequeueInsert? && s.calls[pid].call.dlqId == id
  }

  /** Between two states a job was inserted for the entry. */
  ghost predicate NewJob(s: System, t: System, id: string) {
    exists j :: j in t.db.jobs && j !in s.db.jobs && IsJobOf(t, j, id)
  }

  predicate IsJobOf(s: System, j: string, id: string) {
    j in s.sources && s.sources[j] == id
  }

  /** The entry is handled, no requeue is about to insert a job for it, and none has since `s`. */
  ghost predicate Exhausted(s: System, t: System, id: string) {
    && id in t.db.entries && t.db.entries[id].status != Failed
    && (forall pid :: !Requeueing(t, pid, id))
    && !NewJob(s, t, id)
  }

  /** Only the insert of a requeue adds a job, and it adds one for its own entry. */
  lemma StatementJobs(s: System, t: System, p: Process, choice: string, rows: seq<string>, now: int, id: string)
    requires !NewJob(s, t, id) && !(p.call.RequeueInsert? && p.call.dlqId == id)
    ensures !NewJob(s, Statement(t, p, choice, rows, now).0, id)
  {
    hide EntriesOf, MatchingIds, RecordFailure, InsertEntry, MarkRequeued, MarkDiscarded, SelectFailed;
    DbStatementsKeepJobs(t.db, p, choice, now);
    var u := Statement(t, p, choice, rows, now).0;
    forall j | j in u.db.jobs && j !in s.db.jobs ensures !IsJobOf(u, j, id) {
      if j in t.db.jobs {
        assert !IsJobOf(t, j, id);
      }
    }
  }

  lemma DbStatementsKeepJobs(db: Db, p: Process, choice: string, now: int)
    ensures match p.call
      case MoveUpdate(job, existingId) => RecordFailure(db, existingId, job, now).jobs == db.jobs
      case MoveInsert(job) => InsertEntry(db, choice, job, now).Some? ==>
        InsertEntry(db, choice, job, now).value.jobs == db.jobs
      case RequeueMark(dlqId, _) => MarkRequeued(db, dlqId, p.userId).jobs == db.jobs
      case DiscardUpdate(dlqId) => MarkDiscarded(db, dlqId, p.userId).jobs == db.jobs
      case _ => true
  {
  }

  lemma StatementHandled(t: System, p: Process, choice: string, rows: seq<string>, now: int, id: string)
    requires id in t.db.entries && t.db.entries[id].status != Failed
    ensures var (u, q) := Statement(t, p, choice, rows, now);
      && id in u.db.entries && u.db.entries[id].status != Failed
      && !(q.call.RequeueInsert? && q.call.dlqId == id)
  {
    hide EntriesOf, MatchingIds, JobOf;
  }

  lemma NextExhausted(s: System, t: System, a: Action, id: string)
    requires Exhausted(s, t, id)
    ensures Exhausted(s, Next(t, a), id)
  {
    hide Statement, NewJob;
    if a.Perform? && a.pid in t.calls {
      assert !Requeueing(t, a.pid, id);
      StatementGrows(t, t.calls[a.pid], a.id, a.rows, a.now);
      StatementJobs(s, t, t.calls[a.pid], a.id, a.rows, a.now, id);
      StatementHandled(t, t.calls[a.pid], a.id, a.rows, a.now, id);
    }
    NextKeepsNewJob(s, t, a, id);
    forall pid ensures !Requeueing(Next(t, a), pid, id) {
      assert !Requeueing(t, pid, id);
    }
  }

  lemma NextKeepsNewJob(s: System, t: System, a: Action, id: string)
    ensures !a.Perform? || a.pid !in t.calls ==> (NewJob(s, Next(t, a), id) <==> NewJob(s, t, id))
    ensures a.Perform? && a.pid in t.calls ==>
      (NewJob(s, Next(t, a), id) <==> NewJob(s, Statement(t, t.calls[a.pid], a.id, a.rows, a.now).0, id))
  {
    hide Statement;
  }

  lemma {:induction false} StaysExhausted(s: System, t: System, actions: seq<Action>, id: string)
    requires Exhausted(s, t, id)
    ensures Exhausted(s, After(t, actions), id)
  {
    hide Next, Exhausted;
    if actions != [] {
      var k := |actions| - 1;
      StaysExhausted(s, t, actions[..k], id);
      NextExhausted(s, After(t, actions[..k]), actions[k], id);
    }
  }

  /** A requeue that has selected the entry can insert its job. */
  lemma RequeueingInserts(s: System, pid: nat, id: string, j: string)
    requires Requeueing(s, pid, id) && j !in s.db.jobs
    ensures NewJob(s, Next(s, Perform(pid, j, [], 0)), id)
  {
    assert IsJobOf(Next(s, Perform(pid, j, [], 0)), j, id);
  }

  /** A failed entry can be selected by a requeue that begins now. */
  lemma FailedIsSelected(s: System, pid: nat, id: string, userId: string)
    requires SelectFailed(s.db, id).Some? && pid !in s.calls
    ensures var t := After(s, [Begin(pid, Process(RequeueSelect(id), [], userId)), Perform(pid, "", [], 0)]);
      Requeueing(t, pid, id) && t == s.(calls := t.calls)
  {
    AfterTwo(s, Begin(pid, Process(RequeueSelect(id), [], userId)), Perform(pid, "", [], 0));
  }

  /**
   * From any state, and whether or not the entry already has jobs, a further job for it can be
   * inserted if and only if the entry is still marked failed or a requeue is between its select
   * and its insert.
   */
  lemma AnotherJobIff(s: System, id: string)
    requires id in s.db.entries
    ensures (exists actions :: NewJob(s, After(s, actions), id)) <==>
            SelectFailed(s.db, id).Some? || exists pid :: Requeueing(s, pid, id)
  {
    hide Next, After, NewJob, Requeueing;
    if SelectFailed(s.db, id).Some? || exists pid :: Requeueing(s, pid, id) {
      AnotherJobReachable(s, id);
    } else {
      NothingNew(s, id);
      forall actions ensures !NewJob(s, After(s, actions), id) {
        StaysExhausted(s, s, actions, id);
      }
    }
  }

  lemma NothingNew(s: System, id: string)
    ensures !NewJob(s, s, id)
  {
  }

  lemma AnotherJobReachable(s: System, id: string)
    requires SelectFailed(s.db, id).Some? || exists pid :: Requeueing(s, pid, id)
    ensures exists actions :: NewJob(s, After(s, actions), id)
  {
    hide Next, Requeueing;
    var j := FreshId(s.db.jobs.Keys);
    if pid :| Requeueing(s, pid, id) {
      AfterTwo(s, Perform(pid, j, [], 0), Perform(pid, j, [], 0));
      RequeueingInserts(s, pid, id, j);
    } else {
      var pid := FreshPid(s.calls.Keys);
      var selects := [Begin(pid, Process(RequeueSelect(id), [], "")), Perform(pid, "", [], 0)];
      FailedIsSelected(s, pid, id, "");
      AfterPush(s, selects, Perform(pid, j, [], 0));
      RequeueingInserts(After(s, selects), pid, id, j);
      assert NewJob(s, After(s, selects + [Perform(pid, j, [], 0)]), id);
    }
  }

  // ---------- When a job can get another entry ----------

  /** A move of the same tenant's job has found no entry and not yet inserted one. */
  ghost predicate Moving(s: System, pid: nat, job: FailedJob) {
    pid in s.calls && Inserts(s.calls[pid].call, job)
  }

  predicate Inserts(call: Call, job: FailedJob) {
    call.MoveInsert? && call.job.tenantId == job.tenantId && call.job.jobId == job.jobId
  }

  /** Between two states an entry of the job was inserted. */
  ghost predicate NewEntry(s: System, t: System, job: FailedJob) {
    exists id :: id in EntriesOf(t.db, job) && id !in s.db.entries
  }

  /** The job has an entry, no move is about to insert one, and none has since `s`. */
  ghost predicate Entered(s: System, t: System, job: FailedJob) {
    && EntriesOf(t.db, job) != {}
    && (forall pid :: !Moving(t, pid, job))
    && !NewEntry(s, t, job)
  }

  /** Only the insert of a move adds an entry, and it adds one of its own job. */
  lemma StatementEntries(s: System, p: Process, choice: string, rows: seq<string>, now: int, job: FailedJob)
    ensures var t := Statement(s, p, choice, rows, now).0;
      EntriesOf(t.db, job) ==
        EntriesOf(s.db, job) +
        if Inserts(p.call, job) && choice !in s.db.entries then {choice} else {}
  {
    StatementGrows(s, p, choice, rows, now);
    var t := Statement(s, p, choice, rows, now).0;
    if !p.call.MoveInsert? {
      assert t.db.entries.Keys == s.db.entries.Keys;
    }
  }

  lemma StatementEntered(s: System, p: Process, choice: string, rows: seq<string>, now: int, job: FailedJob)
    requires EntriesOf(s.db, job) != {}
    ensures !Inserts(Statement(s, p, choice, rows, now).1.call, job)
  {
    if p.call.MoveSelect? && p.call.job.tenantId == job.tenantId && p.call.job.jobId == job.jobId {
      assert EntriesOf(s.db, p.call.job) == EntriesOf(s.db, job);
    }
    hide EntriesOf;
  }

  lemma NextEntered(s: System, t: System, a: Action, job: FailedJob)
    requires Entered(s, t, job)
    ensures Entered(s, Next(t, a), job)
  {
    hide Statement, EntriesOf;
    if a.Perform? && a.pid in t.calls {
      assert !Moving(t, a.pid, job);
      StatementGrows(t, t.calls[a.pid], a.id, a.rows, a.now);
      StatementEntries(t, t.calls[a.pid], a.id, a.rows, a.now, job);
      StatementEntered(t, t.calls[a.pid], a.id, a.rows, a.now, job);
    }
    forall pid ensures !Moving(Next(t, a), pid, job) {
      assert !Moving(t, pid, job);
    }
  }

  lemma {:induction false} StaysEntered(s: System, t: System, actions: seq<Action>, job: FailedJob)
    requires Entered(s, t, job)
    ensures Entered(s, After(t, actions), job)
  {
    hide Next, Entered;
    if actions != [] {
      var k := |actions| - 1;
      StaysEntered(s, t, actions[..k], job);
      NextEntered(s, After(t, actions[..k]), actions[k], job);
    }
  }

  lemma MovingInserts(s: System, pid: nat, job: FailedJob, id: string)
    requires Moving(s, pid, job) && id !in s.db.entries
    ensures NewEntry(s, Next(s, Perform(pid, id, [], 0)), job)
  {
    StatementEntries(s, s.calls[pid], id, [], 0, job);
    hide EntriesOf;
  }

  /**
   * Once a tenant's job has an entry, a further one can be inserted if and only if a move of that
   * job is between its select and its insert.
   */
  lemma AnotherEntryIff(s: System, job: FailedJob)
    requires EntriesOf(s.db, job) != {}
    ensures (exists actions :: NewEntry(s, After(s, actions), job)) <==> exists pid :: Moving(s, pid, job)
  {
    hide Next, After, Moving;
    if pid :| Moving(s, pid, job) {
      var id := FreshId(s.db.entries.Keys);
      var insert := Perform(pid, id, [], 0);
      AfterTwo(s, insert, insert);
      MovingInserts(s, pid, job, id);
      assert NewEntry(s, After(s, [insert]), job);
    } else {
      forall actions ensures !NewEntry(s, After(s, actions), job) {
        StaysEntered(s, s, actions, job);
      }
    }
  }

  // ---------- Runs from the empty queue that show both ----------

  /** A job fails for good and is entered. */
  function Arrival(job: FailedJob, id: string): seq<Action> {
    [Begin(0, Process(MoveSelect(job), [], "")), Perform(0, "", [], 0), Perform(0, id, [], 0)]
  }

  lemma Arrives(s: System, job: FailedJob, id: string)
    requires Initial(s) && job.tenantId != ""
    ensures var t := After(s, Arrival(job, id));
      && SelectFailed(t.db, id).Some? && t.db.jobs == s.db.jobs && t.sources == map[]
      && t.calls == map[0 := Process(Finished, [], "")]
  {
    var a := Arrival(job, id);
    assert a == [a[0], a[1]] + [a[2]];
    AfterTwo(s, a[0], a[1]);
    AfterPush(s, [a[0], a[1]], a[2]);
    var selected := After(s, [a[0], a[1]]);
    assert EntriesOf(s.db, job) == {};
    assert selected == s.(calls := map[0 := Process(MoveInsert(job), [], "")]);
  }

  /** No call is in progress. */
  ghost predicate Idle(s: System) {
    forall pid :: pid in s.calls ==> s.calls[pid].call == Finished && s.calls[pid].rest == []
  }

  /** Every call of the run begins when no other one is in progress. */
  ghost predicate OneAtATime(s: System, actions: seq<Action>) {
    forall k :: 0 <= k < |actions| && actions[k].Begin? ==> Idle(After(s, actions[..k]))
  }

  function Requeue(id: string): Process {
    Process(RequeueSelect(id), [], "")
  }

  /** A requeue whose update throws after its job was inserted. */
  function LostRequeue(pid: nat, id: string, j: string): seq<Action> {
    [Begin(pid, Requeue(id)), Perform(pid, "", [], 0)] + [Perform(pid, j, [], 0), Break(pid)]
  }

  /** A requeue that goes through. */
  function WholeRequeue(pid: nat, id: string, j: string): seq<Action> {
    [Begin(pid, Requeue(id)), Perform(pid, "", [], 0)] + [Perform(pid, j, [], 0), Perform(pid, "", [], 0)]
  }

  lemma LosesUpdate(s: System, pid: nat, id: string, j: string)
    requires SelectFailed(s.db, id).Some? && pid !in s.calls && j !in s.db.jobs
    ensures var t := After(s, LostRequeue(pid, id, j));
      && t.db.entries == s.db.entries
      && t.db.jobs == s.db.jobs[j := JobOf(s.db.entries[id])]
      && t.sources == s.sources[j := id]
      && t.calls == s.calls[pid := Process(Finished, [], "")]
  {
    FailedIsSelected(s, pid, id, "");
    var selects, rest := [Begin(pid, Requeue(id)), Perform(pid, "", [], 0)], [Perform(pid, j, [], 0), Break(pid)];
    AfterConcat(s, selects, rest);
    AfterTwo(s, selects[0], selects[1]);
    AfterTwo(After(s, selects), rest[0], rest[1]);
  }

  lemma InsertsAndMarks(s: System, pid: nat, id: string, j: string)
    requires Requeueing(s, pid, id) && id in s.db.entries && j !in s.db.jobs
    ensures var t := After(s, [Perform(pid, j, [], 0), Perform(pid, "", [], 0)]);
      && id in t.db.entries && t.db.entries[id].status == Requeued
      && t.db.jobs == s.db.jobs[j := JobOf(s.calls[pid].call.entry)] && t.sources == s.sources[j := id]
  {
    hide Next;
    AfterTwo(s, Perform(pid, j, [], 0), Perform(pid, "", [], 0));
    InsertStep(s, pid, id, j);
    MarkStep(Next(s, Perform(pid, j, [], 0)), pid, id, j);
  }

  lemma InsertStep(s: System, pid: nat, id: string, j: string)
    requires Requeueing(s, pid, id) && j !in s.db.jobs
    ensures var t := Next(s, Perform(pid, j, [], 0));
      && t.db.entries == s.db.entries
      && t.db.jobs == s.db.jobs[j := JobOf(s.calls[pid].call.entry)] && t.sources == s.sources[j := id]
      && pid in t.calls && t.calls[pid].call == RequeueMark(id, j)
  {
  }

  lemma MarkStep(s: System, pid: nat, id: string, j: string)
    requires id in s.db.entries && pid in s.calls && s.calls[pid].call == RequeueMark(id, j)
    ensures var t := Next(s, Perform(pid, "", [], 0));
      && id in t.db.entries && t.db.entries[id].status == Requeued
      && t.db.jobs == s.db.jobs && t.sources == s.sources
  {
  }

  lemma GoesThrough(s: System, pid: nat, id: string, j: string)
    requires SelectFailed(s.db, id).Some? && pid !in s.calls && j !in s.db.jobs
    ensures var t := After(s, WholeRequeue(pid, id, j));
      && id in t.db.entries && t.db.entries[id].status == Requeued
      && t.db.jobs.Keys == s.db.jobs.Keys + {j}
      && t.sources == s.sources[j := id]
  {
    hide After;
    var selects := [Begin(pid, Requeue(id)), Perform(pid, "", [], 0)];
    FailedIsSelected(s, pid, id, "");
    AfterConcat(s, selects, [Perform(pid, j, [], 0), Perform(pid, "", [], 0)]);
    InsertsAndMarks(After(s, selects), pid, id, j);
  }

  /** A failed entry is requeued twice, and the first time its update is lost. */
  lemma RequeuedTwice(s: System, id: string, j: string, k: string)
    requires SelectFailed(s.db, id).Some? && Idle(s) && 1 !in s.calls && 2 !in s.calls
    requires j !in s.db.jobs && k !in s.db.jobs && j != k
    ensures var run := LostRequeue(1, id, j) + WholeRequeue(2, id, k);
      var t := After(s, run);
      && OneAtATime(s, run)
      && id in t.db.entries && t.db.entries[id].status == Requeued
      && IsJobOf(t, j, id) && j in t.db.jobs && IsJobOf(t, k, id) && k in t.db.jobs
  {
    hide After, LostRequeue, WholeRequeue, OneAtATime;
    var lost, whole := LostRequeue(1, id, j), WholeRequeue(2, id, k);
    AfterConcat(s, lost, whole);
    LosesUpdate(s, 1, id, j);
    GoesThrough(After(s, lost), 2, id, k);
    EachAlone(s, 1, id, j);
    EachAlone(After(s, lost), 2, id, k);
    OneAtATimeConcat(s, lost, whole);
  }

  /** Without any concurrency a requeued entry can have two jobs: an update lost after the insert is enough. */
  lemma TwoJobsOneAtATime(s: System, job: FailedJob, id: string, j: string, k: string)
    requires Initial(s) && job.tenantId != "" && j !in s.db.jobs && k !in s.db.jobs && j != k
    ensures var run := Arrival(job, id) + (LostRequeue(1, id, j) + WholeRequeue(2, id, k));
      var t := After(s, run);
      && OneAtATime(s, run)
      && id in t.db.entries && t.db.entries[id].status == Requeued
      && IsJobOf(t, j, id) && j in t.db.jobs && IsJobOf(t, k, id) && k in t.db.jobs
  {
    hide After, Arrival, LostRequeue, WholeRequeue, OneAtATime;
    var arrival, requeues := Arrival(job, id), LostRequeue(1, id, j) + WholeRequeue(2, id, k);
    Arrives(s, job, id);
    RequeuedTwice(After(s, arrival), id, j, k);
    AfterConcat(s, arrival, requeues);
    ArrivesAlone(s, job, id);
    OneAtATimeConcat(s, arrival, requeues);
  }

  lemma ArrivesAlone(s: System, job: FailedJob, id: string)
    requires Idle(s)
    ensures OneAtATime(s, Arrival(job, id))
  {
    NothingDone(s);
    hide After, Idle;
    assert Arrival(job, id)[..0] == [];
  }

  lemma EachAlone(s: System, pid: nat, id: string, j: string)
    requires Idle(s)
    ensures OneAtATime(s, LostRequeue(pid, id, j)) && OneAtATime(s, WholeRequeue(pid, id, j))
  {
    NothingDone(s);
    hide After, Idle;
    assert LostRequeue(pid, id, j)[..0] == [] && WholeRequeue(pid, id, j)[..0] == [];
  }

  lemma OneAtATimeConcat(s: System, a: seq<Action>, b: seq<Action>)
    requires OneAtATime(s, a) && OneAtATime(After(s, a), b)
    ensures OneAtATime(s, a + b)
  {
    hide After, Idle;
    forall k | 0 <= k < |a + b| && (a + b)[k].Begin? ensures Idle(After(s, (a + b)[..k])) {
      if k < |a| {
        assert (a + b)[..k] == a[..k];
      } else {
        assert (a + b)[..k] == a + b[..k - |a|];
        AfterConcat(s, a, b[..k - |a|]);
      }
    }
  }

  lemma NothingDone(s: System)
    ensures After(s, []) == s
  {
  }

  /** Two requeues of a failed entry can both pass their select... */
  lemma BothSelect(s: System, p: nat, q: nat, id: string)
    requires p in s.calls && q in s.calls && p != q
    requires s.calls[p].call == s.calls[q].call == RequeueSelect(id) && SelectFailed(s.db, id).Some?
    ensures var t := After(s, [Perform(p, "", [], 0), Perform(q, "", [], 0)]);
      t.db == s.db && t.sources == s.sources && Requeueing(t, p, id) && Requeueing(t, q, id)
  {
    AfterTwo(s, Perform(p, "", [], 0), Perform(q, "", [], 0));
  }

  /** ...and then both insert: two jobs for one entry. */
  lemma BothInsert(s: System, p: nat, q: nat, id: string, j: string, k: string)
    requires p != q && Requeueing(s, p, id) && Requeueing(s, q, id)
    requires j !in s.db.jobs && k !in s.db.jobs && j != k
    ensures var t := After(s, [Perform(p, j, [], 0), Perform(q, k, [], 0)]);
      IsJobOf(t, j, id) && IsJobOf(t, k, id) && j in t.db.jobs && k in t.db.jobs
  {
    AfterTwo(s, Perform(p, j, [], 0), Perform(q, k, [], 0));
    StatementInserts(s, p, id, j);
    StatementInserts(Next(s, Perform(p, j, [], 0)), q, id, k);
    hide Statement;
  }

  lemma StatementInserts(s: System, p: nat, id: string, j: string)
    requires Requeueing(s, p, id) && j !in s.db.jobs
    ensures var t := Next(s, Perform(p, j, [], 0));
      && t.sources == s.sources[j := id]
      && t.db.jobs.Keys == s.db.jobs.Keys + {j}
      && forall q :: q != p ==> (Requeueing(s, q, id) <==> Requeueing(t, q, id))
  {
  }

  /** The same without any failure: two calls that overlap. */
  lemma TwoJobsInterleaved(s: System, job: FailedJob, id: string, j: string, k: string)
    requires Initial(s) && job.tenantId != "" && j !in s.db.jobs && k !in s.db.jobs && j != k
    ensures var t := After(s, Arrival(job, id) +
                              [Begin(1, Requeue(id)), Begin(2, Requeue(id))] +
                              [Perform(1, "", [], 0), Perform(2, "", [], 0)] +
                              [Perform(1, j, [], 0), Perform(2, k, [], 0)]);
      IsJobOf(t, j, id) && IsJobOf(t, k, id) && j in t.db.jobs && k in t.db.jobs
  {
    var arrival, begins := Arrival(job, id), [Begin(1, Requeue(id)), Begin(2, Requeue(id))];
    var selects := [Perform(1, "", [], 0), Perform(2, "", [], 0)];
    var inserts := [Perform(1, j, [], 0), Perform(2, k, [], 0)];
    Arrives(s, job, id);
    AfterConcat(s, arrival, begins);
    AfterTwo(After(s, arrival), begins[0], begins[1]);
    AfterConcat(s, arrival + begins, selects);
    BothSelect(After(s, arrival + begins), 1, 2, id);
    AfterConcat(s, arrival + begins + selects, inserts);
    BothInsert(After(s, arrival + begins + selects), 1, 2, id, j, k);
  }

  /** A discard of a failed entry between the select and the insert of a requeue... */
  lemma DiscardedWhilePending(s: System, pid: nat, q: nat, id: string)
    requires Requeueing(s, pid, id) && SelectFailed(s.db, id).Some? && q !in s.calls
    ensures var t := After(s, [Begin(q, Process(DiscardUpdate(id), [], "")), Perform(q, "", [], 0)]);
      && id in t.db.entries && t.db.entries[id].status == Discarded
      && Requeueing(t, pid, id) && t.db.jobs == s.db.jobs
  {
    AfterTwo(s, Begin(q, Process(DiscardUpdate(id), [], "")), Perform(q, "", [], 0));
  }

  /** A run from the empty queue up to where an entry is discarded with a requeue still pending. */
  function DiscardWhilePending(job: FailedJob, id: string): seq<Action> {
    Arrival(job, id) +
    [Begin(1, Requeue(id)), Perform(1, "", [], 0)] +
    [Begin(2, Process(DiscardUpdate(id), [], "")), Perform(2, "", [], 0)]
  }

  /** ...succeeds, and the rest of the requeue overwrites it. */
  lemma DiscardOverwritten(s: System, job: FailedJob, id: string, j: string)
    requires Initial(s) && job.tenantId != "" && j !in s.db.jobs
    ensures var t := After(s, DiscardWhilePending(job, id));
      Inv(t) && id in t.db.entries && t.db.entries[id].status == Discarded && Pending(t, id)
    ensures var u := After(s, DiscardWhilePending(job, id) + [Perform(1, j, [], 0), Perform(1, "", [], 0)]);
      id in u.db.entries && u.db.entries[id].status == Requeued
  {
    hide After, Arrival, Inv;
    var arrival, selects := Arrival(job, id), [Begin(1, Requeue(id)), Perform(1, "", [], 0)];
    var discards := [Begin(2, Process(DiscardUpdate(id), [], "")), Perform(2, "", [], 0)];
    Arrives(s, job, id);
    AfterConcat(s, arrival, selects);
    FailedIsSelected(After(s, arrival), 1, id, "");
    SelectCalls(After(s, arrival), 1, id);
    AfterConcat(s, arrival + selects, discards);
    DiscardedWhilePending(After(s, arrival + selects), 1, 2, id);
    InitialInv(s);
    RunKeepsInv(s, DiscardWhilePending(job, id));
    var t := After(s, DiscardWhilePending(job, id));
    assert Holds(t.calls[1].call, id);
    AfterConcat(s, DiscardWhilePending(job, id), [Perform(1, j, [], 0), Perform(1, "", [], 0)]);
    InsertsAndMarks(t, 1, id, j);
  }

  lemma InitialInv(s: System)
    requires Initial(s)
    ensures Inv(s)
  {
  }

  lemma SelectCalls(s: System, pid: nat, id: string)
    requires pid !in s.calls
    ensures After(s, [Begin(pid, Requeue(id)), Perform(pid, "", [], 0)]).calls.Keys == s.calls.Keys + {pid}
  {
    AfterTwo(s, Begin(pid, Requeue(id)), Perform(pid, "", [], 0));
  }

  /** Two moves of one job that both find no entry insert two. */
  lemma BothMove(s: System, p: nat, q: nat, job: FailedJob, a: string, b: string, now: int)
    requires p in s.calls && q in s.calls && p != q && s.calls[p].call == s.calls[q].call == MoveInsert(job)
    requires a !in s.db.entries && b !in s.db.entries && a != b
    ensures var t := After(s, [Perform(p, a, [], now), Perform(q, b, [], now)]);
      a in t.db.entries && b in t.db.entries && SameJob(t.db.entries[a], t.db.entries[b])
  {
    AfterTwo(s, Perform(p, a, [], now), Perform(q, b, [], now));
  }

  /** Two moves of one job that overlap leave two entries for it. */
  lemma TwoEntriesInterleaved(s: System, job: FailedJob, a: string, b: string)
    requires Initial(s) && job.tenantId != "" && a != b
    ensures var move := Process(MoveSelect(job), [], "");
      var t := After(s, [Begin(0, move), Begin(1, move)] +
                        [Perform(0, "", [], 0), Perform(1, "", [], 0)] +
                        [Perform(0, a, [], 0), Perform(1, b, [], 0)]);
      a in t.db.entries && b in t.db.entries && SameJob(t.db.entries[a], t.db.entries[b])
  {
    var move := Process(MoveSelect(job), [], "");
    var begins, selects := [Begin(0, move), Begin(1, move)], [Perform(0, "", [], 0), Perform(1, "", [], 0)];
    var inserts := [Perform(0, a, [], 0), Perform(1, b, [], 0)];
    AfterTwo(s, begins[0], begins[1]);
    AfterConcat(s, begins, selects);
    assert EntriesOf(s.db, job) == {};
    AfterTwo(After(s, begins), selects[0], selects[1]);
    AfterConcat(s, begins + selects, inserts);
    BothMove(After(s, begins + selects), 0, 1, job, a, b, 0);
  }

  // ---------- What calls that do not overlap keep ----------

  /** No statement throws that is the update after the insert of a job. */
  ghost predicate LosesNoUpdate(s: System, actions: seq<Action>) {
    forall k :: 0 <= k < |actions| && actions[k].Break? ==>
      var t := After(s, actions[..k]);
      actions[k].pid in t.calls ==> !t.calls[actions[k].pid].call.RequeueMark?
  }

  predicate Busy(p: Process) {
    p.call != Finished || p.rest != []
  }

  ghost predicate DistinctSources(sources: map<string, string>) {
    forall j, k :: j in sources && k in sources && sources[j] == sources[k] ==> j == k
  }

  /** Every entry with a job is requeued, or is about to be by the call. */
  ghost predicate Settling(db: Db, sources: map<string, string>, call: Call) {
    forall j :: j in sources ==>
      && j in db.jobs && sources[j] in db.entries
      && (db.entries[sources[j]].status == Requeued || call == RequeueMark(sources[j], j))
  }

  /** What holds before the next statement of the only call in progress. */
  ghost predicate Ready(t: System, call: Call) {
    && OneEntryEach(t.db)
    && DistinctSources(t.sources)
    && Settling(t.db, t.sources, call)
    && match call
       case MoveInsert(job) => EntriesOf(t.db, job) == {}
       case RequeueInsert(id, entry) => SelectFailed(t.db, id).Some?
       case RequeueMark(id, j) => id in t.db.entries && IsJobOf(t, j, id)
       case _ => true
  }

  /** At most one call is in progress, and it is ready. */
  ghost predicate Serial(t: System) {
    && (forall p, q :: p in t.calls && q in t.calls && Busy(t.calls[p]) && Busy(t.calls[q]) ==> p == q)
    && (forall p :: p in t.calls && Busy(t.calls[p]) ==> Ready(t, t.calls[p].call))
    && (Idle(t) ==> Ready(t, Finished))
  }

  lemma MoveReady(t: System, p: Process, id: string, rows: seq<string>, now: int)
    requires Ready(t, p.call) && (p.call.MoveSelect? || p.call.MoveUpdate? || p.call.MoveInsert?)
    ensures var (u, q) := Statement(t, p, id, rows, now); Ready(u, q.call)
  {
    hide MatchingIds, MarkRequeued, MarkDiscarded, InsertJob, DistinctSources;
    if p.call.MoveInsert? && id !in t.db.entries {
      EntryStaysAlone(t.db, id, p.call.job, now);
      hide OneEntryEach;
    } else if p.call.MoveUpdate? {
      FailureKeepsOneEntry(t.db, p.call.existingId, p.call.job, now);
      hide OneEntryEach;
    } else {
      hide OneEntryEach;
    }
  }

  lemma FailureKeepsOneEntry(db: Db, id: string, job: FailedJob, now: int)
    requires OneEntryEach(db)
    ensures OneEntryEach(RecordFailure(db, id, job, now))
  {
  }

  lemma InsertReady(t: System, p: Process, id: string)
    requires Ready(t, p.call) && p.call.RequeueInsert?
    ensures var (u, q) := Statement(t, p, id, [], 0); Ready(u, q.call)
  {
    hide Statement, OneEntryEach, JobOf, DistinctSources, Settling;
    InsertEffect(t, p, id);
    var u := Statement(t, p, id, [], 0).0;
    if id !in t.db.jobs {
      EntriesKept(t.db, u.db);
      InsertSettles(t.db, u.db, t.sources, p.call, id);
    } else {
      NothingSettles(t.db, t.sources, p.call);
    }
  }

  lemma NothingSettles(db: Db, sources: map<string, string>, call: Call)
    requires Settling(db, sources, call) && !call.RequeueMark?
    ensures Settling(db, sources, Finished)
  {
  }

  lemma InsertSettles(db: Db, after: Db, sources: map<string, string>, call: Call, id: string)
    requires DistinctSources(sources) && Settling(db, sources, call) && call.RequeueInsert?
    requires SelectFailed(db, call.dlqId).Some? && id !in db.jobs
    requires after.entries == db.entries && after.jobs.Keys == db.jobs.Keys + {id}
    ensures DistinctSources(sources[id := call.dlqId])
    ensures Settling(after, sources[id := call.dlqId], RequeueMark(call.dlqId, id))
  {
    assert forall j :: j in sources ==> sources[j] != call.dlqId;
  }

  lemma InsertEffect(t: System, p: Process, id: string)
    requires p.call.RequeueInsert?
    ensures var (u, q) := Statement(t, p, id, [], 0);
      if id in t.db.jobs then u == t && q.call == Finished
      else
        && u.db.entries == t.db.entries && u.db.jobs.Keys == t.db.jobs.Keys + {id}
        && u.sources == t.sources[id := p.call.dlqId] && q.call == RequeueMark(p.call.dlqId, id)
  {
  }

  lemma EntriesKept(db: Db, after: Db)
    requires OneEntryEach(db) && after.entries == db.entries
    ensures OneEntryEach(after)
  {
  }

  lemma MarkReady(t: System, p: Process, id: string)
    requires Ready(t, p.call) && p.call.RequeueMark?
    ensures var (u, q) := Statement(t, p, id, [], 0); Ready(u, q.call)
  {
    MarksKeepOneEntry(t.db, p.call.dlqId, p.userId);
    hide OneEntryEach;
  }

  lemma DiscardReady(t: System, p: Process, id: string)
    requires Ready(t, p.call) && p.call.DiscardUpdate?
    ensures var (u, q) := Statement(t, p, id, [], 0); Ready(u, q.call)
  {
    MarksKeepOneEntry(t.db, p.call.dlqId, p.userId);
    hide OneEntryEach;
  }

  lemma MarksKeepOneEntry(db: Db, id: string, userId: string)
    requires OneEntryEach(db)
    ensures OneEntryEach(MarkRequeued(db, id, userId)) && OneEntryEach(MarkDiscarded(db, id, userId))
  {
  }

  /** Selects, and moving on to the next entry of a bulk requeue, leave the tables alone. */
  lemma SelectReady(t: System, p: Process, id: string, rows: seq<string>, now: int)
    requires Ready(t, p.call) && (p.call.RequeueSelect? || p.call.BulkSelect? || p.call.Finished?)
    ensures var (u, q) := Statement(t, p, id, rows, now); Ready(u, q.call)
  {
    hide OneEntryEach, MatchingIds;
  }

  lemma OthersReady(t: System, p: Process, id: string, rows: seq<string>, now: int)
    requires Ready(t, p.call) && !(p.call.MoveSelect? || p.call.MoveUpdate? || p.call.MoveInsert?)
    ensures var (u, q) := Statement(t, p, id, rows, now); Ready(u, q.call)
  {
    hide Ready;
    if p.call.RequeueInsert? || p.call.RequeueMark? || p.call.DiscardUpdate? {
      assert Statement(t, p, id, rows, now) == Statement(t, p, id, [], 0);
      hide Statement;
      if p.call.RequeueInsert? {
        InsertReady(t, p, id);
      } else if p.call.RequeueMark? {
        MarkReady(t, p, id);
      } else {
        DiscardReady(t, p, id);
      }
    } else {
      hide Statement;
      SelectReady(t, p, id, rows, now);
    }
  }

  lemma StatementReady(t: System, p: Process, id: string, rows: seq<string>, now: int)
    requires Ready(t, p.call)
    ensures var (u, q) := Statement(t, p, id, rows, now); Ready(u, q.call)
  {
    hide Statement, Ready;
    if p.call.MoveSelect? || p.call.MoveUpdate? || p.call.MoveInsert? {
      MoveReady(t, p, id, rows, now);
    } else {
      OthersReady(t, p, id, rows, now);
    }
  }

  /** Whoever is in progress does not matter to what is ready but for its own call. */
  lemma ReadyIgnoresCalls(t: System, u: System, call: Call, next: Call)
    requires Ready(t, call) && !call.RequeueMark? && u == t.(calls := u.calls)
    requires !next.MoveInsert? && !next.RequeueInsert? && !next.RequeueMark?
    ensures Ready(u, next)
  {
  }

  lemma PerformSerial(t: System, a: Action)
    requires Serial(t) && a.Perform? && a.pid in t.calls
    ensures Serial(Next(t, a))
  {
    hide Statement, Ready;
    var p := t.calls[a.pid];
    var (u, q) := Statement(t, p, a.id, a.rows, a.now);
    StatementGrows(t, p, a.id, a.rows, a.now);
    var after := Next(t, a);
    if Busy(p) {
      StatementReady(t, p, a.id, a.rows, a.now);
      ReadyElsewhere(u, after, q.call);
      assert after.calls[a.pid] == q;
    } else {
      NothingLeft(t, p, a.id, a.rows, a.now);
      assert after.calls == t.calls;
    }
  }

  lemma ReadyElsewhere(t: System, u: System, call: Call)
    requires Ready(t, call) && u == t.(calls := u.calls)
    ensures Ready(u, call)
  {
  }

  lemma NothingLeft(t: System, p: Process, id: string, rows: seq<string>, now: int)
    requires !Busy(p)
    ensures Statement(t, p, id, rows, now) == (t, p)
  {
  }

  lemma NextSerial(t: System, a: Action)
    requires Serial(t)
    requires a.Begin? ==> Idle(t)
    requires a.Break? && a.pid in t.calls ==> !t.calls[a.pid].call.RequeueMark?
    ensures Serial(Next(t, a))
  {
    hide Statement, Ready;
    match a
    case Begin(pid, process) =>
      if pid !in t.calls && IsFirst(process.call) && process.rest == [] {
        var u := Next(t, a);
        ReadyIgnoresCalls(t, u, Finished, process.call);
        assert u.calls[pid] == process && process.call != Finished;
        assert u.calls == t.calls[pid := process];
      }
    case Perform(pid, id, rows, now) =>
      if pid in t.calls {
        PerformSerial(t, a);
      }
    case Break(pid) =>
      if pid in t.calls && Busy(t.calls[pid]) {
        ReadyIgnoresCalls(t, Next(t, a), t.calls[pid].call, Finished);
      } else if pid in t.calls {
        assert Next(t, a).calls == t.calls;
      }
  }

  lemma InitialSerial(s: System)
    requires Initial(s)
    ensures Serial(s)
  {
  }

  lemma {:induction false} RunSerial(s: System, actions: seq<Action>)
    requires Serial(s) && OneAtATime(s, actions) && LosesNoUpdate(s, actions)
    ensures Serial(After(s, actions))
  {
    hide Next, Serial, Idle;
    if actions != [] {
      var k := |actions| - 1;
      var earlier := actions[..k];
      forall n | 0 <= n < k ensures earlier[..n] == actions[..n] && earlier[n] == actions[n] {
      }
      RunSerial(s, earlier);
      NextSerial(After(s, earlier), actions[k]);
    }
  }

  /**
   * When no two calls overlap and no update is lost after an insert, whatever else fails, a
   * requeued entry has exactly one job, no other entry has any once all calls are through, and a
   * tenant's job never has two entries.
   */
  lemma SerialRunsKeepPromises(s: System, actions: seq<Action>)
    requires Initial(s) && OneAtATime(s, actions) && LosesNoUpdate(s, actions)
    ensures var t := After(s, actions);
      && OneEntryEach(t.db)
      && (forall id :: id in t.db.entries && t.db.entries[id].status == Requeued ==>
            exists j :: JobsFor(t.sources, id) == {j})
      && (Idle(t) ==> OneJobEach(t.db, t.sources))
  {
    hide After, Idle;
    InitialSerial(s);
    RunSerial(s, actions);
    InitialInv(s);
    RunKeepsInv(s, actions);
    var t := After(s, actions);
    SerialIsReady(t);
    forall id | id in t.db.entries && t.db.entries[id].status == Requeued
      ensures exists j :: JobsFor(t.sources, id) == {j}
    {
      assert HasJob(t.sources, id);
      var j :| j in t.sources && t.sources[j] == id;
      assert JobsFor(t.sources, id) == {j};
    }
  }

  lemma SerialIsReady(t: System)
    requires Serial(t)
    ensures exists call :: Ready(t, call) && (Idle(t) ==> call == Finished)
  {
    hide Ready;
    if Idle(t) {
      assert Ready(t, Finished);
    } else {
      var p :| p in t.calls && Busy(t.calls[p]);
      assert Ready(t, t.calls[p].call);
    }
  }

  // ---------- A call that nothing interrupts does what the queue says ----------

  /** A move performed statement by statement; `found` is the entry that the select returns, if there is one. */
  lemma WholeMove(s: System, pid: nat, job: FailedJob, found: string, newId: string, now: int)
    requires pid !in s.calls && (EntriesOf(s.db, job) != {} ==> found in EntriesOf(s.db, job))
    ensures var begin := Begin(pid, Process(MoveSelect(job), [], ""));
      var t := After(s, [begin, Perform(pid, found, [], now)] + [Perform(pid, newId, [], now)]);
      && t.sources == s.sources
      && t.db ==
           (if job.tenantId == "" then s.db
            else if EntriesOf(s.db, job) != {} then RecordFailure(s.db, found, job, now)
            else InsertEntry(s.db, newId, job, now).GetOr(s.db))
  {
    hide EntriesOf, RecordFailure, InsertEntry;
    var begin := Begin(pid, Process(MoveSelect(job), [], ""));
    AfterTwo(s, begin, Perform(pid, found, [], now));
    AfterPush(s, [begin, Perform(pid, found, [], now)], Perform(pid, newId, [], now));
  }

  lemma SelectsEntry(s: System, pid: nat, dlqId: string, userId: string)
    requires pid !in s.calls
    ensures var t := After(s, [Begin(pid, Process(RequeueSelect(dlqId), [], userId)), Perform(pid, "", [], 0)]);
      var entry := SelectFailed(s.db, dlqId);
      && t.db == s.db && t.sources == s.sources && pid in t.calls
      && t.calls[pid] == Process(if entry.Some? then RequeueInsert(dlqId, entry.value) else Finished, [], userId)
  {
    hide SelectFailed;
    AfterTwo(s, Begin(pid, Process(RequeueSelect(dlqId), [], userId)), Perform(pid, "", [], 0));
  }

  lemma InsertsForEntry(s: System, pid: nat, id: string, entry: Entry, userId: string, newId: string)
    requires pid in s.calls && s.calls[pid] == Process(RequeueInsert(id, entry), [], userId)
    ensures var t := Next(s, Perform(pid, newId, [], 0));
      if newId in s.db.jobs then t.db == s.db && t.sources == s.sources && IsThrough(t, pid)
      else
        && t.db == InsertJob(s.db, newId, entry).value && t.sources == s.sources[newId := id]
        && pid in t.calls && t.calls[pid] == Process(RequeueMark(id, newId), [], userId)
  {
  }

  ghost predicate IsThrough(s: System, pid: nat) {
    pid in s.calls && !Busy(s.calls[pid])
  }

  lemma NothingMore(s: System, pid: nat, id: string)
    requires IsThrough(s, pid)
    ensures Next(s, Perform(pid, id, [], 0)).db == s.db && Next(s, Perform(pid, id, [], 0)).sources == s.sources
    ensures IsThrough(Next(s, Perform(pid, id, [], 0)), pid)
  {
    NothingLeft(s, s.calls[pid], id, [], 0);
    hide Statement;
  }

  lemma MarksForEntry(s: System, pid: nat, id: string, userId: string, newId: string)
    requires pid in s.calls && s.calls[pid] == Process(RequeueMark(id, newId), [], userId)
    ensures var t := Next(s, Perform(pid, "", [], 0));
      t.db == MarkRequeued(s.db, id, userId) && t.sources == s.sources
  {
    hide MarkRequeued;
  }

  /** A requeue performed statement by statement. */
  lemma WholeRequeueIs(s: System, pid: nat, dlqId: string, userId: string, newId: string)
    requires pid !in s.calls
    ensures var begin := Begin(pid, Process(RequeueSelect(dlqId), [], userId));
      var t := After(s, [begin, Perform(pid, "", [], 0)] + [Perform(pid, newId, [], 0), Perform(pid, "", [], 0)]);
      var entry := SelectFailed(s.db, dlqId);
      if entry.None? || newId in s.db.jobs then t.db == s.db && t.sources == s.sources
      else
        && t.db == MarkRequeued(InsertJob(s.db, newId, entry.value).value, dlqId, userId)
        && t.sources == s.sources[newId := dlqId]
  {
    hide Next, After, MarkRequeued;
    var first := [Begin(pid, Process(RequeueSelect(dlqId), [], userId)), Perform(pid, "", [], 0)];
    var rest := [Perform(pid, newId, [], 0), Perform(pid, "", [], 0)];
    AfterConcat(s, first, rest);
    SelectsEntry(s, pid, dlqId, userId);
    var t := After(s, first);
    AfterTwo(t, rest[0], rest[1]);
    var entry := SelectFailed(s.db, dlqId);
    if entry.Some? {
      InsertsForEntry(t, pid, dlqId, entry.value, userId, newId);
      var u := Next(t, rest[0]);
      if newId in s.db.jobs {
        NothingMore(u, pid, "");
      } else {
        MarksForEntry(u, pid, dlqId, userId, newId);
      }
    } else {
      NothingMore(t, pid, newId);
      NothingMore(Next(t, rest[0]), pid, "");
    }
  }

  /** A discard is one statement. */
  lemma WholeDiscard(s: System, pid: nat, dlqId: string, userId: string)
    requires pid !in s.calls
    ensures var t := After(s, [Begin(pid, Process(DiscardUpdate(dlqId), [], userId)), Perform(pid, "", [], 0)]);
      t.db == MarkDiscarded(s.db, dlqId, userId) && t.sources == s.sources
  {
    hide MarkDiscarded;
    AfterTwo(s, Begin(pid, Process(DiscardUpdate(dlqId), [], userId)), Perform(pid, "", [], 0));
  }

  /** A bulk requeue takes rows that match, up to the limit, and then requeues one after the other. */
  lemma BulkGoesThrough(s: System, pid: nat, tenantId: string, filters: Filters, userId: string, rows: seq<string>)
    requires pid !in s.calls
    ensures var begin := Begin(pid, Process(BulkSelect(tenantId, filters), [], userId));
      var t := After(s, [begin, Perform(pid, "", rows, 0)]);
      && t.db == s.db && t.sources == s.sources && pid in t.calls
      && (t.calls[pid].call == Finished <==>
            |rows| <= LimitOf(filters) && forall id :: id in rows ==> id in MatchingIds(s.db, tenantId, filters))
      && (t.calls[pid].call == Finished ==> t.calls[pid] == Process(Finished, rows, userId))
      && (t.calls[pid].call == Finished && rows != [] ==>
            var u := Next(t, Perform(pid, "", [], 0));
            u.db == s.db && pid in u.calls && u.calls[pid] == Process(RequeueSelect(rows[0]), rows[1..], userId))
  {
    hide MatchingIds, LimitOf;
    AfterTwo(s, Begin(pid, Process(BulkSelect(tenantId, filters), [], userId)), Perform(pid, "", rows, 0));
  }
}
