/** The review tables and the transactions on them, as functions from store to store. Row ids
    are numbered in the order they are issued. Times are whole seconds. */
module Review {
  import opened Basics
  import opened Json
  import opened Evidence

  datatype Status = Pending | Running | Retry | Succeeded | Failed

  datatype Request = Request(selectorType: string, selector: Json, source: string, summary: Json, rowLimit: nat)

  datatype Verdict = Verdict(verdict: string, severity: string, summary: string,
                             rationale: seq<string>, actions: seq<string>, cited: seq<string>)

  datatype Model = Model(provider: string, model: string, piVersion: string)

  /** What a succeeded job stores as its result. */
  datatype Outcome = Outcome(verdict: Verdict, findingKey: string, decisionId: nat)

  datatype Job = Job(
    key: string, request: Request, status: Status, attempts: nat, maxAttempts: nat,
    availableAt: int, claimedAt: Option<int>, completedAt: Option<int>,
    result: Option<Outcome>, error: Option<Failure>, createdAt: int, updatedAt: int)

  datatype EvidenceRow = EvidenceRow(
    jobId: nat, kind: string, title: string, uri: string, payload: Json, expiresAt: int)

  datatype Decision = Decision(jobId: nat, verdict: Verdict, model: Model)

  datatype Finding = Finding(decisionId: nat, occurrences: nat, firstSeenAt: int, lastSeenAt: int)

  datatype Store = Store(
    jobs: map<nat, Job>, evidence: map<nat, EvidenceRow>, decisions: map<nat, Decision>,
    findings: map<string, Finding>, nextId: nat)

  const EMPTY := Store(map[], map[], map[], map[], 0)

  const ABANDONED_AFTER := 900

  // ---------- Submission ----------

  function NewJob(key: string, request: Request, maxAttempts: nat, now: int): Job {
    Job(key, request, Pending, 0, maxAttempts, now, None, None, None, None, now, now)
  }

  function Created(s: Store, key: string, request: Request, maxAttempts: nat, now: int): Store {
    s.(jobs := s.jobs[s.nextId := NewJob(key, request, maxAttempts, now)], nextId := s.nextId + 1)
  }

  ghost predicate Taken(jobs: map<nat, Job>, key: string) {
    exists id :: id in jobs && jobs[id].key == key
  }

  // ---------- Claiming ----------

  predicate Claimable(job: Job) {
    job.status == Pending || job.status == Retry
  }

  predicate Due(job: Job, now: int) {
    Claimable(job) && job.availableAt <= now
  }

  /** The claim's query: a due row than which no due row is older. */
  predicate OldestDue(jobs: map<nat, Job>, now: int, id: nat) {
    && id in jobs && Due(jobs[id], now)
    && forall other :: other in jobs && Due(jobs[other], now) ==> jobs[id].createdAt <= jobs[other].createdAt
  }

  /** Where a row is due, some due row is oldest. */
  lemma SomeDueRowIsOldest(jobs: map<nat, Job>, now: int, id: nat)
    requires id in jobs && Due(jobs[id], now)
    ensures exists oldest :: OldestDue(jobs, now, oldest)
  {
    var due := set other | other in jobs && Due(jobs[other], now);
    assert id in due && forall other :: other in jobs && Due(jobs[other], now) ==> other in due;
    var oldest := LeastOf(due, other => if other in jobs then jobs[other].createdAt else 0);
    assert OldestDue(jobs, now, oldest);
  }

  function ClaimedRow(job: Job, now: int): Job {
    job.(status := Running, attempts := job.attempts + 1, claimedAt := Some(now), updatedAt := now)
  }

  /** The claim's guarded update: it changes nothing unless the row is still claimable. */
  function Claimed(s: Store, id: nat, now: int): Store {
    if id in s.jobs && Claimable(s.jobs[id])
    then s.(jobs := s.jobs[id := ClaimedRow(s.jobs[id], now)])
    else s
  }

  // ---------- Recovery ----------

  predicate Abandoned(job: Job, now: int) {
    job.status == Running && job.claimedAt.Some? && job.claimedAt.value < now - ABANDONED_AFTER
  }

  function RecoveredRow(job: Job, now: int): Job {
    if Abandoned(job, now) then job.(status := Retry, availableAt := now, updatedAt := now) else job
  }

  function Recovered(s: Store, now: int): Store {
    s.(jobs := map id | id in s.jobs :: RecoveredRow(s.jobs[id], now))
  }

  // ---------- Retry ----------

  function JobDelay(attempts: nat): nat {
    Min(900, Pow2(Min(attempts, 9)))
  }

  function RetriedRow(job: Job, attempts: nat, maxAttempts: nat, error: Failure, delay: nat, now: int): Job {
    var terminal := attempts >= maxAttempts;
    job.(status := if terminal then Failed else Retry, error := Some(error),
         availableAt := now + delay, completedAt := if terminal then Some(now) else None,
         updatedAt := now)
  }

  /** `attempts` and `maxAttempts` come from the row as the worker read it; the update goes by
      id alone. */
  function Retried(s: Store, id: nat, attempts: nat, maxAttempts: nat, error: Failure, delay: nat, now: int): Store {
    if id in s.jobs then s.(jobs := s.jobs[id := RetriedRow(s.jobs[id], attempts, maxAttempts, error, delay, now)])
    else s
  }

  // ---------- Completion ----------

  function EvidenceRowOf(id: nat, item: Item, expiresAt: int): EvidenceRow {
    EvidenceRow(id, Clip(if item.kind != "" then item.kind else "event", 32),
                Clip(if item.title != "" then item.title else "Evidence", 256), item.uri,
                if Truthy(item.payload) then item.payload else Obj(map[]), expiresAt)
  }

  /** One row per item, numbered from `next` on. */
  function EvidenceAdded(rows: map<nat, EvidenceRow>, next: nat, id: nat, items: seq<Item>, expiresAt: int):
    map<nat, EvidenceRow> {
    if items == [] then rows
    else
      var last := |items| - 1;
      EvidenceAdded(rows, next, id, items[..last], expiresAt)[next + last := EvidenceRowOf(id, items[last], expiresAt)]
  }

  /** A stored row against its item, column by column. */
  ghost predicate Stores(row: EvidenceRow, id: nat, item: Item, expiresAt: int) {
    && row.jobId == id && row.expiresAt == expiresAt && row.uri == item.uri
    && row.kind == (if |item.kind| == 0 then "event" else Clip(item.kind, 32))
    && row.title == (if |item.title| == 0 then "Evidence" else Clip(item.title, 256))
    && row.payload == (if Truthy(item.payload) then item.payload else Obj(map[]))
  }

  lemma RowStores(id: nat, item: Item, expiresAt: int)
    ensures Stores(EvidenceRowOf(id, item, expiresAt), id, item, expiresAt)
  {
    assert item.kind == "" <==> |item.kind| == 0;
    assert item.title == "" <==> |item.title| == 0;
    assert |"event"| == 5 && |"Evidence"| == 8;
  }

  /** The table holds the old rows and one row per item, with the item in its columns. */
  lemma {:induction false} EvidenceAddedRow(
      rows: map<nat, EvidenceRow>, next: nat, id: nat, items: seq<Item>, expiresAt: int, i: nat)
    requires forall e :: e in rows ==> e < next
    ensures var r := EvidenceAdded(rows, next, id, items, expiresAt);
            && (i in r <==> i in rows || next <= i < next + |items|)
            && (i in rows ==> r[i] == rows[i])
            && (next <= i < next + |items| ==> Stores(r[i], id, items[i - next], expiresAt))
  {
    if items != [] {
      hide Stores, EvidenceRowOf;
      EvidenceAddedRow(rows, next, id, items[..|items| - 1], expiresAt, i);
      RowStores(id, items[|items| - 1], expiresAt);
    }
  }

  lemma {:induction false} EvidenceIsStored(
      rows: map<nat, EvidenceRow>, next: nat, id: nat, items: seq<Item>, expiresAt: int, i: nat)
    requires i < |items|
    ensures var r := EvidenceAdded(rows, next, id, items, expiresAt);
            next + i in r && Stores(r[next + i], id, items[i], expiresAt)
  {
    hide Stores, EvidenceRowOf;
    if i < |items| - 1 {
      EvidenceIsStored(rows, next, id, items[..|items| - 1], expiresAt, i);
    } else {
      RowStores(id, items[i], expiresAt);
    }
  }

  /** The row holds what the model was shown: every text as it is, and the payload, but for an
      empty one of another kind than an object. */
  ghost predicate Keeps(row: EvidenceRow, item: Item) {
    && row.kind == item.kind && row.title == item.title && row.uri == item.uri
    && (row.payload == item.payload <==> Truthy(item.payload) || item.payload == Obj(map[]))
    && (row.payload != item.payload ==> row.payload == Obj(map[]))
  }

  /** Collected items are stored as they were shown. */
  lemma PresentableIsKept(row: EvidenceRow, id: nat, item: Item, expiresAt: int)
    requires Stores(row, id, item, expiresAt) && Presentable(item)
    ensures Keeps(row, item)
  {
  }

  function Sighted(findings: map<string, Finding>, key: string, decisionId: nat, now: int): map<string, Finding> {
    if key in findings
    then findings[key :=
          findings[key].(decisionId := decisionId, occurrences := findings[key].occurrences + 1, lastSeenAt := now)]
    else findings[key := Finding(decisionId, 1, now, now)]
  }

  function CompletedRow(job: Job, outcome: Outcome, now: int): Job {
    job.(status := Succeeded, result := Some(outcome), error := None, completedAt := Some(now), updatedAt := now)
  }

  /** Evidence, decision, finding and job change together; without the job row the foreign
      keys reject the transaction. */
  function Completed(s: Store, id: nat, verdict: Verdict, model: Model, items: seq<Item>, findingKey: string,
                     now: int, expiresAt: int): Store
  {
    if id !in s.jobs then s else
    var decisionId := s.nextId + |items|;
    Store(s.jobs[id := CompletedRow(s.jobs[id], Outcome(verdict, findingKey, decisionId), now)],
          EvidenceAdded(s.evidence, s.nextId, id, items, expiresAt),
          s.decisions[decisionId := Decision(id, verdict, model)],
          Sighted(s.findings, findingKey, decisionId, now),
          decisionId + 1)
  }

  // ---------- Retention ----------

  predicate Finished(job: Job) {
    job.status == Succeeded || job.status == Failed
  }

  predicate Outlived(job: Job, cutoff: int) {
    Finished(job) && job.completedAt.Some? && job.completedAt.value < cutoff
  }

  function KeptJobs(jobs: map<nat, Job>, cutoff: int): map<nat, Job> {
    map id | id in jobs && !Outlived(jobs[id], cutoff) :: jobs[id]
  }

  function OutlivedJobs(jobs: map<nat, Job>, cutoff: int): set<nat> {
    set j | j in jobs && Outlived(jobs[j], cutoff)
  }

  function ExpiredEvidence(evidence: map<nat, EvidenceRow>, now: int): set<nat> {
    set e | e in evidence && evidence[e].expiresAt < now
  }

  /** What a purge deletes by itself: the jobs finished before the cut-off, and the evidence whose
      time is over. */
  lemma DeletedRows(jobs: map<nat, Job>, evidence: map<nat, EvidenceRow>, now: int, cutoff: int, id: nat)
    ensures id in OutlivedJobs(jobs, cutoff) <==>
              && id in jobs && (jobs[id].status == Succeeded || jobs[id].status == Failed)
              && jobs[id].completedAt.Some? && jobs[id].completedAt.value < cutoff
    ensures id in ExpiredEvidence(evidence, now) <==> id in evidence && evidence[id].expiresAt < now
  {
  }

  /** Deletes expired evidence and outlived jobs, and by cascade everything hanging on them. */
  function Purged(s: Store, now: int, cutoff: int): Store {
    var jobs := KeptJobs(s.jobs, cutoff);
    var decisions := map d | d in s.decisions && s.decisions[d].jobId in jobs :: s.decisions[d];
    s.(jobs := jobs,
       evidence := map e | e in s.evidence && !(s.evidence[e].expiresAt < now) && s.evidence[e].jobId in jobs ::
         s.evidence[e],
       decisions := decisions,
       findings := map k | k in s.findings && s.findings[k].decisionId in decisions :: s.findings[k])
  }
}
