/** Whole runs of the review queue: one worker that may crash between any two transactions,
    any number of submissions, retention at any cut-off. */
module ReviewRuns {
  import opened Evidence
  import opened Review

  datatype Config = Config(maxAttempts: nat, promptMaxRows: nat, evidenceRetention: nat, epoch: int)

  /** A live worker holds at most one job, with the row as its claim returned it. */
  datatype Worker = Down | Idle | Holding(id: nat, job: Job)

  datatype World = World(db: Store, worker: Worker, clock: int)

  datatype Event =
    | Submit(at: int, key: string, request: Request)
    | Start(at: int)
    | Claim(at: int, id: nat)
    | Complete(at: int, verdict: Verdict, model: Model, items: seq<Item>, findingKey: string)
    | Fail(at: int, error: Failure)
    | Crash(at: int)
    | Purge(at: int, cutoff: int)

  ghost predicate Enabled(c: Config, w: World, e: Event) {
    && w.clock <= e.at
    && match e
       case Submit(_, key, request) => !Taken(w.db.jobs, key) && request.rowLimit <= c.promptMaxRows
       case Start(_) => w.worker.Down?
       case Claim(at, id) => w.worker.Idle? && OldestDue(w.db.jobs, at, id)
       case Complete(_, verdict, _, items, _) =>
         && w.worker.Holding? && Numbered(items) && |items| <= w.worker.job.request.rowLimit
         && forall id :: id in verdict.cited ==> id in Ids(items)
       case Fail(_, _) => w.worker.Holding?
       case Crash(_) => true
       case Purge(_, _) => w.worker.Idle?
  }

  function ApplyToStore(c: Config, s: Store, worker: Worker, e: Event): Store {
    match e
    case Submit(at, key, request) => Created(s, key, request, c.maxAttempts, at)
    case Start(at) => Recovered(s, at)
    case Claim(at, id) => Claimed(s, id, at)
    case Complete(at, verdict, model, items, findingKey) =>
      if worker.Holding? then Completed(s, worker.id, verdict, model, items, findingKey, at, at + c.evidenceRetention)
      else s
    case Fail(at, error) =>
      if worker.Holding? then
        Retried(s, worker.id, worker.job.attempts, worker.job.maxAttempts, error, JobDelay(worker.job.attempts), at)
      else s
    case Crash(_) => s
    case Purge(at, cutoff) => Purged(s, at, cutoff)
  }

  function ApplyToWorker(s: Store, worker: Worker, e: Event): Worker {
    match e
    case Start(_) => Idle
    case Claim(at, id) => if id in s.jobs then Holding(id, ClaimedRow(s.jobs[id], at)) else worker
    case Complete(_, _, _, _, _) => Idle
    case Fail(_, _) => Idle
    case Crash(_) => Down
    case _ => worker
  }

  function Apply(c: Config, w: World, e: Event): World {
    World(ApplyToStore(c, w.db, w.worker, e), ApplyToWorker(w.db, w.worker, e), e.at)
  }

  function Front(es: seq<Event>): seq<Event>
    requires es != []
  {
    es[..|es| - 1]
  }

  function Last(es: seq<Event>): Event
    requires es != []
  {
    es[|es| - 1]
  }

  function Run(c: Config, es: seq<Event>): World {
    if es == [] then World(EMPTY, Down, c.epoch) else Apply(c, Run(c, Front(es)), Last(es))
  }

  ghost predicate Valid(c: Config, es: seq<Event>) {
    es != [] ==> Valid(c, Front(es)) && Enabled(c, Run(c, Front(es)), Last(es))
  }

  lemma OneMore(c: Config, es: seq<Event>, e: Event)
    requires Valid(c, es) && Enabled(c, Run(c, es), e)
    ensures Valid(c, es + [e]) && Run(c, es + [e]) == Apply(c, Run(c, es), e)
  {
    assert Front(es + [e]) == es && Last(es + [e]) == e;
  }

  // ---------- The invariant ----------

  /** Decision `d` stands, and was committed for finding key `key`. */
  ghost predicate Carries(s: Store, d: nat, key: string) {
    && d in s.decisions && s.decisions[d].jobId in s.jobs
    && s.jobs[s.decisions[d].jobId].result.Some?
    && s.jobs[s.decisions[d].jobId].result.value.findingKey == key
  }

  ghost predicate IdsIssued(s: Store) {
    && (forall id :: id in s.jobs ==> id < s.nextId)
    && (forall id :: id in s.evidence ==> id < s.nextId)
    && (forall id :: id in s.decisions ==> id < s.nextId)
  }

  ghost predicate KeysUnique(jobs: map<nat, Job>) {
    forall i, j :: i in jobs && j in jobs && jobs[i].key == jobs[j].key ==> i == j
  }

  /** The columns of one row agree with its status. */
  ghost predicate RowConsistent(c: Config, job: Job, clock: int) {
    && job.maxAttempts == c.maxAttempts
    && job.request.rowLimit <= c.promptMaxRows
    && (job.completedAt.Some? <==> Finished(job))
    && (job.completedAt.Some? ==> job.completedAt.value <= clock)
    && (job.result.Some? <==> job.status == Succeeded)
    && (job.status == Running ==> job.claimedAt.Some? && job.availableAt <= job.claimedAt.value <= clock)
  }

  /** Decisions and succeeded jobs correspond one to one. */
  ghost predicate OneDecisionEach(s: Store) {
    && (forall j :: j in s.jobs && s.jobs[j].result.Some? ==>
          s.jobs[j].result.value.decisionId in s.decisions &&
          s.decisions[s.jobs[j].result.value.decisionId].jobId == j)
    && (forall d :: d in s.decisions ==>
          s.decisions[d].jobId in s.jobs && s.jobs[s.decisions[d].jobId].result.Some? &&
          s.jobs[s.decisions[d].jobId].result.value.decisionId == d &&
          s.jobs[s.decisions[d].jobId].result.value.verdict == s.decisions[d].verdict)
  }

  ghost predicate CitesAmong(cited: seq<string>, n: nat) {
    forall id :: id in cited ==> exists i :: 1 <= i <= n && id == EvidenceId(i)
  }

  ghost predicate CitationsBounded(s: Store) {
    forall d :: d in s.decisions && s.decisions[d].jobId in s.jobs ==>
      CitesAmong(s.decisions[d].verdict.cited, s.jobs[s.decisions[d].jobId].request.rowLimit)
  }

  ghost predicate EvidenceAttached(s: Store) {
    forall e :: e in s.evidence ==> s.evidence[e].jobId in s.jobs && s.jobs[s.evidence[e].jobId].status == Succeeded
  }

  /** Decisions were committed in the order of their ids. */
  ghost predicate Chronological(s: Store) {
    forall d1, d2 :: d1 in s.decisions && d2 in s.decisions && d1 <= d2 ==>
      && s.decisions[d1].jobId in s.jobs && s.decisions[d2].jobId in s.jobs
      && var t1, t2 := s.jobs[s.decisions[d1].jobId].completedAt, s.jobs[s.decisions[d2].jobId].completedAt;
         t1.Some? && t2.Some? && t1.value <= t2.value
  }

  /** Every finding points at a standing decision of its key; every standing decision has a
      finding, which points at it or at a later one. */
  ghost predicate FindingsTrack(s: Store) {
    && (forall k :: k in s.findings ==> Carries(s, s.findings[k].decisionId, k))
    && (forall d: nat, k :: Carries(s, d, k) ==> k in s.findings && d <= s.findings[k].decisionId)
  }

  ghost predicate HeldIsRunning(w: World) {
    w.worker.Holding? ==>
      && w.worker.id in w.db.jobs && w.db.jobs[w.worker.id] == w.worker.job
      && w.worker.job.status == Running && w.worker.job.availableAt <= w.clock
  }

  ghost predicate RowsOk(c: Config, w: World) {
    && IdsIssued(w.db) && KeysUnique(w.db.jobs) && HeldIsRunning(w)
    && forall id :: id in w.db.jobs ==> RowConsistent(c, w.db.jobs[id], w.clock)
  }

  ghost predicate Inv(c: Config, w: World) {
    RowsOk(c, w) && Decided(w.db)
  }

  ghost predicate Decided(s: Store) {
    OneDecisionEach(s) && Chronological(s) && FindingsTrack(s) && CitationsBounded(s) && EvidenceAttached(s)
  }

  // ---------- Every step keeps it ----------

  lemma OneRowChanges(c: Config, w: World, w': World, id: nat)
    requires RowsOk(c, w) && w.clock <= w'.clock && id in w.db.jobs && id in w'.db.jobs
    requires w'.db.jobs == w.db.jobs[id := w'.db.jobs[id]] && w'.db.jobs[id].key == w.db.jobs[id].key
    requires RowConsistent(c, w'.db.jobs[id], w'.clock)
    requires IdsIssued(w'.db) && HeldIsRunning(w')
    ensures RowsOk(c, w')
  {
  }

  /** A commit that passed its checks, for a stored job that has not succeeded. */
  ghost predicate Committable(w: World, id: nat, e: Event) {
    && e.Complete? && w.clock <= e.at && id in w.db.jobs && w.db.jobs[id].status != Succeeded
    && Numbered(e.items) && |e.items| <= w.db.jobs[id].request.rowLimit
    && forall x :: x in e.verdict.cited ==> x in Ids(e.items)
  }

  function Committed(c: Config, s: Store, id: nat, e: Event): Store
    requires e.Complete?
  {
    Completed(s, id, e.verdict, e.model, e.items, e.findingKey, e.at, e.at + c.evidenceRetention)
  }

  lemma CompleteIssuesIds(c: Config, w: World, id: nat, e: Event)
    requires RowsOk(c, w) && Committable(w, id, e)
    ensures IdsIssued(Committed(c, w.db, id, e))
  {
    hide EvidenceAdded, KeysUnique, RowConsistent, Sighted;
    var s, s' := w.db, Committed(c, w.db, id, e);
    forall i | i in s'.evidence ensures i < s'.nextId {
      EvidenceAddedRow(s.evidence, s.nextId, id, e.items, e.at + c.evidenceRetention, i);
    }
  }

  lemma RowsStep(c: Config, w: World, e: Event)
    requires RowsOk(c, w) && Enabled(c, w, e)
    ensures RowsOk(c, Apply(c, w, e))
  {
    hide EvidenceAdded, Sighted, Numbered;
    var w' := Apply(c, w, e);
    match e
    case Claim(_, id) => OneRowChanges(c, w, w', id);
    case Complete(_, _, _, _, _) =>
      CompleteIssuesIds(c, w, w.worker.id, e);
      OneRowChanges(c, w, w', w.worker.id);
    case Fail(_, _) => OneRowChanges(c, w, w', w.worker.id);
    case Submit(_, _, _) => SubmitKeepsRows(c, w, e);
    case Start(_) => StartKeepsRows(c, w, e);
    case Crash(_) =>
    case Purge(_, _) =>
  }

  lemma SubmitKeepsRows(c: Config, w: World, e: Event)
    requires RowsOk(c, w) && Enabled(c, w, e) && e.Submit?
    ensures RowsOk(c, Apply(c, w, e))
  {
  }

  lemma StartKeepsRows(c: Config, w: World, e: Event)
    requires RowsOk(c, w) && Enabled(c, w, e) && e.Start?
    ensures RowsOk(c, Apply(c, w, e))
  {
    var s, s' := w.db, Apply(c, w, e).db;
    forall id | id in s'.jobs ensures RowConsistent(c, s'.jobs[id], e.at) {
      assert RowConsistent(c, s.jobs[id], w.clock);
    }
  }

  /** Only rows without a decision changed. */
  ghost predicate UndecidedOnly(s: Store, s': Store) {
    && s'.decisions == s.decisions && s'.findings == s.findings && s'.evidence == s.evidence
    && (forall id :: id in s.jobs && s.jobs[id].status == Succeeded ==> id in s'.jobs && s'.jobs[id] == s.jobs[id])
    && (forall id :: id in s.jobs ==> (s.jobs[id].result.Some? <==> s.jobs[id].status == Succeeded))
    && (forall id :: id in s'.jobs && s'.jobs[id].result.Some? ==> id in s.jobs && s.jobs[id].result.Some?)
  }

  lemma UndecidedKeepsDecisions(s: Store, s': Store)
    requires Decided(s) && UndecidedOnly(s, s')
    ensures OneDecisionEach(s') && Chronological(s')
  {
    forall d | d in s.decisions
      ensures var j := s.decisions[d].jobId; j in s'.jobs && s'.jobs[j] == s.jobs[j]
    {
    }
  }

  lemma UndecidedKeepsCarries(s: Store, s': Store, d: nat, k: string)
    requires Decided(s) && UndecidedOnly(s, s')
    ensures Carries(s', d, k) <==> Carries(s, d, k)
  {
    if d in s.decisions {
      var j := s.decisions[d].jobId;
      assert j in s'.jobs && s'.jobs[j] == s.jobs[j];
    }
  }

  lemma UndecidedKeepsFindings(s: Store, s': Store)
    requires Decided(s) && UndecidedOnly(s, s')
    ensures FindingsTrack(s')
  {
    forall k | k in s'.findings ensures Carries(s', s'.findings[k].decisionId, k) {
      UndecidedKeepsCarries(s, s', s.findings[k].decisionId, k);
    }
    forall d: nat, k | Carries(s', d, k) ensures k in s'.findings && d <= s'.findings[k].decisionId {
      UndecidedKeepsCarries(s, s', d, k);
    }
  }

  lemma UndecidedKeepsCitations(s: Store, s': Store)
    requires Decided(s) && UndecidedOnly(s, s')
    ensures CitationsBounded(s') && EvidenceAttached(s')
  {
    forall d | d in s.decisions
      ensures var j := s.decisions[d].jobId; j in s'.jobs && s'.jobs[j] == s.jobs[j]
    {
    }
  }

  /** A completion leaves every standing decision and its job as they were. */
  lemma CompleteSparesDecision(c: Config, w: World, id: nat, e: Event, d: nat)
    requires Inv(c, w) && Committable(w, id, e) && d in w.db.decisions
    ensures var s, s' := w.db, Committed(c, w.db, id, e);
            && d < s.nextId + |e.items| && d in s'.decisions && s'.decisions[d] == s.decisions[d]
            && var j := s.decisions[d].jobId;
            && j != id && j in s'.jobs && s'.jobs[j] == s.jobs[j]
            && s.jobs[j].completedAt.Some? && s.jobs[j].completedAt.value <= e.at
  {
    hide EvidenceAdded;
    assert RowConsistent(c, w.db.jobs[id], w.clock);
    assert RowConsistent(c, w.db.jobs[w.db.decisions[d].jobId], w.clock);
  }

  lemma CompleteKeepsOneDecisionEach(c: Config, w: World, id: nat, e: Event)
    requires Inv(c, w) && Committable(w, id, e)
    ensures OneDecisionEach(Committed(c, w.db, id, e))
  {
    hide EvidenceAdded, Sighted, Numbered, RowsOk, Chronological, FindingsTrack, CitationsBounded, EvidenceAttached;
    var s, s' := w.db, Committed(c, w.db, id, e);
    forall d | d in s'.decisions
      ensures s'.decisions[d].jobId in s'.jobs && s'.jobs[s'.decisions[d].jobId].result.Some?
      ensures s'.jobs[s'.decisions[d].jobId].result.value.decisionId == d
      ensures s'.jobs[s'.decisions[d].jobId].result.value.verdict == s'.decisions[d].verdict
    {
      if d in s.decisions { CompleteSparesDecision(c, w, id, e, d); }
    }
    forall j | j in s'.jobs && s'.jobs[j].result.Some?
      ensures s'.jobs[j].result.value.decisionId in s'.decisions
      ensures s'.decisions[s'.jobs[j].result.value.decisionId].jobId == j
    {
      if j != id { CompleteSparesDecision(c, w, id, e, s.jobs[j].result.value.decisionId); }
    }
  }

  lemma CompleteKeepsChronology(c: Config, w: World, id: nat, e: Event)
    requires Inv(c, w) && Committable(w, id, e)
    ensures Chronological(Committed(c, w.db, id, e))
  {
    var s, s' := w.db, Committed(c, w.db, id, e);
    forall d1, d2 | d1 in s'.decisions && d2 in s'.decisions && d1 <= d2
      ensures s'.decisions[d1].jobId in s'.jobs && s'.decisions[d2].jobId in s'.jobs
      ensures var t1, t2 := s'.jobs[s'.decisions[d1].jobId].completedAt, s'.jobs[s'.decisions[d2].jobId].completedAt;
              t1.Some? && t2.Some? && t1.value <= t2.value
    {
      if d1 in s.decisions { CompleteSparesDecision(c, w, id, e, d1); }
      if d2 in s.decisions { CompleteSparesDecision(c, w, id, e, d2); }
    }
  }

  lemma CompleteCarries(c: Config, w: World, id: nat, e: Event, d: nat, k: string)
    requires Inv(c, w) && Committable(w, id, e)
    ensures Carries(Committed(c, w.db, id, e), d, k) <==>
            Carries(w.db, d, k) || (d == w.db.nextId + |e.items| && k == e.findingKey)
  {
    hide EvidenceAdded;
    assert RowConsistent(c, w.db.jobs[id], w.clock);
  }

  lemma CompleteFindingPoints(c: Config, w: World, id: nat, e: Event, k: string)
    requires Inv(c, w) && Committable(w, id, e) && k in Committed(c, w.db, id, e).findings
    ensures var s' := Committed(c, w.db, id, e); Carries(s', s'.findings[k].decisionId, k)
  {
    hide EvidenceAdded;
    var s' := Committed(c, w.db, id, e);
    CompleteCarries(c, w, id, e, s'.findings[k].decisionId, k);
  }

  lemma CompleteFindingCovers(c: Config, w: World, id: nat, e: Event, d: nat, k: string)
    requires Inv(c, w) && Committable(w, id, e) && Carries(Committed(c, w.db, id, e), d, k)
    ensures var s' := Committed(c, w.db, id, e); k in s'.findings && d <= s'.findings[k].decisionId
  {
    hide EvidenceAdded;
    CompleteCarries(c, w, id, e, d, k);
    if Carries(w.db, d, k) {
      CompleteSparesDecision(c, w, id, e, d);
    }
  }

  lemma CompleteKeepsFindings(c: Config, w: World, id: nat, e: Event)
    requires Inv(c, w) && Committable(w, id, e)
    ensures FindingsTrack(Committed(c, w.db, id, e))
  {
    var s' := Committed(c, w.db, id, e);
    forall k | k in s'.findings ensures Carries(s', s'.findings[k].decisionId, k) {
      CompleteFindingPoints(c, w, id, e, k);
    }
    forall d: nat, k | Carries(s', d, k) ensures k in s'.findings && d <= s'.findings[k].decisionId {
      CompleteFindingCovers(c, w, id, e, d, k);
    }
  }

  lemma {:induction false} CheckedCitationsAreAmong(cited: seq<string>, items: seq<Item>, n: nat)
    requires Numbered(items) && |items| <= n && forall id :: id in cited ==> id in Ids(items)
    ensures CitesAmong(cited, n)
  {
    forall id | id in cited ensures exists i :: 1 <= i <= n && id == EvidenceId(i) {
      assert id in Ids(items);
      var j :| 0 <= j < |items| && items[j].externalId == id;
      assert id == EvidenceId(j + 1);
    }
  }

  lemma CompleteKeepsCitations(c: Config, w: World, id: nat, e: Event)
    requires Inv(c, w) && Committable(w, id, e)
    ensures CitationsBounded(Committed(c, w.db, id, e))
  {
    var s, s' := w.db, Committed(c, w.db, id, e);
    CheckedCitationsAreAmong(e.verdict.cited, e.items, w.db.jobs[id].request.rowLimit);
    forall d | d in s'.decisions
      ensures CitesAmong(s'.decisions[d].verdict.cited, s'.jobs[s'.decisions[d].jobId].request.rowLimit)
    {
      if d in s.decisions { CompleteSparesDecision(c, w, id, e, d); }
    }
  }

  lemma CompleteKeepsEvidence(c: Config, w: World, id: nat, e: Event)
    requires Inv(c, w) && Committable(w, id, e)
    ensures EvidenceAttached(Committed(c, w.db, id, e))
  {
    hide EvidenceAdded, FindingsTrack, OneDecisionEach, Chronological, CitationsBounded, KeysUnique, Sighted;
    var s, s' := w.db, Committed(c, w.db, id, e);
    forall i | i in s'.evidence
      ensures s'.evidence[i].jobId in s'.jobs && s'.jobs[s'.evidence[i].jobId].status == Succeeded
    {
      EvidenceAddedRow(s.evidence, s.nextId, id, e.items, e.at + c.evidenceRetention, i);
    }
  }

  lemma CommitKeepsDecided(c: Config, w: World, id: nat, e: Event)
    requires Inv(c, w) && Committable(w, id, e)
    ensures Decided(Committed(c, w.db, id, e))
  {
    CompleteKeepsOneDecisionEach(c, w, id, e);
    CompleteKeepsChronology(c, w, id, e);
    CompleteKeepsFindings(c, w, id, e);
    CompleteKeepsCitations(c, w, id, e);
    CompleteKeepsEvidence(c, w, id, e);
  }

  lemma PurgeCarries(s: Store, now: int, cutoff: int, d: nat, k: string)
    ensures Carries(Purged(s, now, cutoff), d, k) <==>
            Carries(s, d, k) && !Outlived(s.jobs[s.decisions[d].jobId], cutoff)
  {
  }

  /** The cascade never separates a finding from its standing decisions: an earlier decision of
      the key was committed no later, so it goes at the same cut-off or before. */
  lemma PurgeKeepsFindings(c: Config, w: World, now: int, cutoff: int)
    requires Inv(c, w)
    ensures FindingsTrack(Purged(w.db, now, cutoff))
  {
    hide CitationsBounded, EvidenceAttached, OneDecisionEach, KeysUnique;
    var s, s' := w.db, Purged(w.db, now, cutoff);
    forall k | k in s'.findings ensures Carries(s', s'.findings[k].decisionId, k) {
      PurgeCarries(s, now, cutoff, s.findings[k].decisionId, k);
    }
    forall d: nat, k | Carries(s', d, k) ensures k in s'.findings && d <= s'.findings[k].decisionId {
      PurgeCarries(s, now, cutoff, d, k);
      var latest := s.findings[k].decisionId;
      assert Carries(s, latest, k) && d <= latest;
      assert RowConsistent(c, s.jobs[s.decisions[d].jobId], w.clock);
      assert latest in s'.decisions;
    }
  }

  lemma PurgeKeepsDecided(c: Config, w: World, now: int, cutoff: int)
    requires Inv(c, w)
    ensures Decided(Purged(w.db, now, cutoff))
  {
    PurgeKeepsFindings(c, w, now, cutoff);
  }

  lemma HeldIsCommittable(c: Config, w: World, e: Event)
    requires Inv(c, w) && Enabled(c, w, e) && e.Complete?
    ensures Committable(w, w.worker.id, e)
    ensures Apply(c, w, e).db == Committed(c, w.db, w.worker.id, e)
  {
    hide Decided, Completed;
  }

  lemma CompleteStep(c: Config, w: World, e: Event)
    requires Inv(c, w) && Enabled(c, w, e) && e.Complete?
    ensures Decided(Apply(c, w, e).db)
  {
    hide Decided, RowsOk, Committable, Committed, Apply;
    HeldIsCommittable(c, w, e);
    CommitKeepsDecided(c, w, w.worker.id, e);
  }

  lemma InvStep(c: Config, w: World, e: Event)
    requires Inv(c, w) && Enabled(c, w, e)
    ensures Inv(c, Apply(c, w, e))
  {
    hide Decided, RowsOk;
    RowsStep(c, w, e);
    match e
    case Complete(_, _, _, _, _) => CompleteStep(c, w, e);
    case Purge(now, cutoff) => PurgeKeepsDecided(c, w, now, cutoff);
    case Crash(_) =>
    case _ => OtherStepsKeepDecided(c, w, e);
  }

  lemma OtherStepsAreUndecided(c: Config, w: World, e: Event)
    requires Inv(c, w) && Enabled(c, w, e)
    requires e.Submit? || e.Start? || e.Claim? || e.Fail?
    ensures UndecidedOnly(w.db, Apply(c, w, e).db)
  {
    hide EvidenceAdded, Sighted, KeysUnique, Decided, Numbered;
    forall id | id in w.db.jobs ensures RowConsistent(c, w.db.jobs[id], w.clock) {
    }
  }

  lemma OtherStepsKeepDecided(c: Config, w: World, e: Event)
    requires Inv(c, w) && Enabled(c, w, e)
    requires e.Submit? || e.Start? || e.Claim? || e.Fail?
    ensures Decided(Apply(c, w, e).db)
  {
    OtherStepsAreUndecided(c, w, e);
    UndecidedKeepsDecisions(w.db, Apply(c, w, e).db);
    UndecidedKeepsFindings(w.db, Apply(c, w, e).db);
    UndecidedKeepsCitations(w.db, Apply(c, w, e).db);
  }

  /** Every run of the queue keeps the invariant. */
  lemma {:induction false} RunsKeepInv(c: Config, es: seq<Event>)
    requires Valid(c, es)
    ensures Inv(c, Run(c, es))
  {
    if es != [] {
      RunsKeepInv(c, Front(es));
      InvStep(c, Run(c, Front(es)), Last(es));
    }
  }
}
