/** Retries and completions go by the id of a job alone, so a worker that has lost the job can
    still write to it. When that does no harm, and when it does. */
module LateUpdates {
  import opened Evidence
  import opened Review
  import opened ReviewRuns
  import opened Attempts

  /** The world after a retry by some other worker. */
  function LateRetry(w: World, id: nat, attempts: nat, maxAttempts: nat, error: Failure, delay: nat, now: int): World {
    World(Retried(w.db, id, attempts, maxAttempts, error, delay, now), w.worker, now)
  }

  /** A late retry keeps the invariant of the runs exactly when the job has not succeeded and is
      not held by the present worker. */
  lemma LateRetryIsSafeExactly(
      c: Config, w: World, id: nat, attempts: nat, maxAttempts: nat, error: Failure, delay: nat, now: int)
    requires Inv(c, w) && id in w.db.jobs && w.clock <= now
    ensures Inv(c, LateRetry(w, id, attempts, maxAttempts, error, delay, now)) <==>
            w.db.jobs[id].status != Succeeded && !Holds(w, id)
  {
    var w' := LateRetry(w, id, attempts, maxAttempts, error, delay, now);
    assert RowConsistent(c, w.db.jobs[id], w.clock);
    if w.db.jobs[id].status == Succeeded {
      assert !RowConsistent(c, w'.db.jobs[id], now);
    } else if !Holds(w, id) {
      LateRetryKeepsRows(c, w, w', id);
      LateRetryIsUndecided(c, w, w', id);
      UndecidedKeepsDecisions(w.db, w'.db);
      UndecidedKeepsFindings(w.db, w'.db);
      UndecidedKeepsCitations(w.db, w'.db);
    }
  }

  /** Only one row changed, to a consistent one without a decision. */
  ghost predicate RewritesRow(c: Config, w: World, w': World, id: nat) {
    && id in w.db.jobs && id in w'.db.jobs && w.clock <= w'.clock && w'.worker == w.worker
    && w'.db == w.db.(jobs := w.db.jobs[id := w'.db.jobs[id]]) && w'.db.jobs[id].key == w.db.jobs[id].key
    && w.db.jobs[id].result.None? && w'.db.jobs[id].result.None? && RowConsistent(c, w'.db.jobs[id], w'.clock)
  }

  lemma LateRetryKeepsRows(c: Config, w: World, w': World, id: nat)
    requires RowsOk(c, w) && RewritesRow(c, w, w', id) && !Holds(w, id)
    ensures RowsOk(c, w')
  {
    OneRowChanges(c, w, w', id);
  }

  lemma LateRetryIsUndecided(c: Config, w: World, w': World, id: nat)
    requires RowsOk(c, w) && RewritesRow(c, w, w', id)
    ensures UndecidedOnly(w.db, w'.db)
  {
    forall j | j in w.db.jobs ensures w.db.jobs[j].result.Some? <==> w.db.jobs[j].status == Succeeded {
      assert RowConsistent(c, w.db.jobs[j], w.clock);
    }
  }

  /** A late commit of a reply that fits its evidence does so under the same condition. */
  lemma LateCommitIsSafeExactly(c: Config, w: World, id: nat, e: Event)
    requires Inv(c, w) && id in w.db.jobs && w.clock <= e.at && e.Complete?
    requires Numbered(e.items) && |e.items| <= w.db.jobs[id].request.rowLimit
    requires forall x :: x in e.verdict.cited ==> x in Ids(e.items)
    ensures Inv(c, World(Committed(c, w.db, id, e), w.worker, e.at)) <==>
            w.db.jobs[id].status != Succeeded && !Holds(w, id)
  {
    if w.db.jobs[id].status == Succeeded {
      SecondCommitBreaks(c, w, id, e);
    } else if Holds(w, id) {
      HeldCommitBreaks(c, w, id, e);
    } else {
      LateCommitKeepsInv(c, w, id, e);
    }
  }

  lemma SecondCommitBreaks(c: Config, w: World, id: nat, e: Event)
    requires Inv(c, w) && id in w.db.jobs && e.Complete? && w.db.jobs[id].status == Succeeded
    ensures !OneDecisionEach(Committed(c, w.db, id, e))
  {
    hide EvidenceAdded, Sighted;
    var s, s' := w.db, Committed(c, w.db, id, e);
    assert RowConsistent(c, s.jobs[id], w.clock);
    var d := s.jobs[id].result.value.decisionId;
    assert d in s'.decisions && d != s.nextId + |e.items| && s'.decisions[d].jobId == id;
  }

  lemma HeldCommitBreaks(c: Config, w: World, id: nat, e: Event)
    requires Inv(c, w) && Holds(w, id) && e.Complete?
    ensures !HeldIsRunning(World(Committed(c, w.db, id, e), w.worker, e.at))
  {
    hide EvidenceAdded, Sighted;
  }

  lemma LateCommitKeepsInv(c: Config, w: World, id: nat, e: Event)
    requires Inv(c, w) && Committable(w, id, e) && !Holds(w, id)
    ensures Inv(c, World(Committed(c, w.db, id, e), w.worker, e.at))
  {
    CommitKeepsDecided(c, w, id, e);
    LateCommitKeepsRows(c, w, id, e);
  }

  lemma LateCommitKeepsRows(c: Config, w: World, id: nat, e: Event)
    requires RowsOk(c, w) && Committable(w, id, e) && !Holds(w, id)
    ensures RowsOk(c, World(Committed(c, w.db, id, e), w.worker, e.at))
  {
    hide EvidenceAdded, Sighted;
    CompleteIssuesIds(c, w, id, e);
    assert RowConsistent(c, w.db.jobs[id], w.clock);
    OneRowChanges(c, w, World(Committed(c, w.db, id, e), w.worker, e.at), id);
  }

  /** A late retry leaves a finished job finished exactly when the row it had read was out of
      attempts, and it never leaves a succeeded job succeeded. */
  lemma LateRetryReopensExactly(
      s: Store, id: nat, attempts: nat, maxAttempts: nat, error: Failure, delay: nat, now: int)
    requires id in s.jobs && Finished(s.jobs[id])
    ensures var job, job' := s.jobs[id], Retried(s, id, attempts, maxAttempts, error, delay, now).jobs[id];
            && (Finished(job') <==> attempts >= maxAttempts)
            && (!Finished(job') ==> Due(job', now + delay))
            && (job'.status == job.status <==> job.status == Failed && attempts >= maxAttempts)
  {
  }
}
