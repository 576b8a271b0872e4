/** What holds of decisions and of finished jobs in every interleaving of workers, and when. */
module RaceHistory {
  import opened Evidence
  import opened Review
  import opened ReviewRuns
  import opened ClaimRace

  type Race = ClaimRace.World
  type Act = ClaimRace.Event

  function Before(es: seq<Act>): seq<Act>
    requires es != []
  {
    es[..|es| - 1]
  }

  // ---------- One decision per job ----------

  /** Decisions and succeeded jobs correspond one to one. */
  ghost predicate DecidedOnce(s: Store) {
    && OneDecisionEach(s)
    && (forall j :: j in s.jobs ==> (s.jobs[j].result.Some? <==> s.jobs[j].status == Succeeded))
    && (forall d :: d in s.decisions ==> d < s.nextId)
  }

  lemma CommitDecidesOnce(
      s: Store, id: nat, verdict: Verdict, model: Model, items: seq<Item>, findingKey: string, now: int,
      expiresAt: int)
    requires DecidedOnce(s) && id in s.jobs && s.jobs[id].status != Succeeded
    ensures DecidedOnce(Completed(s, id, verdict, model, items, findingKey, now, expiresAt))
  {
    hide Completed;
    var s' := Completed(s, id, verdict, model, items, findingKey, now, expiresAt);
    var issued := s.nextId + |items|;
    OthersStay(s, id, verdict, model, items, findingKey, now, expiresAt);
    forall d | d in s'.decisions
      ensures d < s'.nextId && s'.decisions[d].jobId in s'.jobs
      ensures var job := s'.jobs[s'.decisions[d].jobId];
              job.result.Some? && job.result.value.decisionId == d &&
              job.result.value.verdict == s'.decisions[d].verdict
    {
      if d != issued {
        assert d in s.decisions && s.decisions[d].jobId != id;
      }
    }
    forall j | j in s'.jobs && s'.jobs[j].result.Some?
      ensures s'.jobs[j].result.value.decisionId in s'.decisions
      ensures s'.decisions[s'.jobs[j].result.value.decisionId].jobId == j
    {
      if j != id {
        assert s.jobs[j].result.value.decisionId in s.decisions;
      }
    }
  }

  lemma OthersStay(
      s: Store, id: nat, verdict: Verdict, model: Model, items: seq<Item>, findingKey: string, now: int, expiresAt: int)
    requires DecidedOnce(s) && id in s.jobs
    ensures var s', issued := Completed(s, id, verdict, model, items, findingKey, now, expiresAt), s.nextId + |items|;
            && issued !in s.decisions && s'.decisions == s.decisions[issued := Decision(id, verdict, model)]
            && s'.jobs == s.jobs[id := CompletedRow(s.jobs[id], Outcome(verdict, findingKey, issued), now)]
            && s'.nextId == issued + 1
  {
    hide EvidenceAdded, Sighted, OneDecisionEach;
  }

  /** Rows with a decision are the same, and the others still have none. */
  ghost predicate SameDecided(s: Store, s': Store) {
    && s'.decisions == s.decisions && s.nextId <= s'.nextId
    && (forall j :: j in s.jobs && s.jobs[j].status == Succeeded ==> j in s'.jobs && s'.jobs[j] == s.jobs[j])
    && (forall j :: j in s'.jobs && (s'.jobs[j].result.Some? || s'.jobs[j].status == Succeeded) ==>
          j in s.jobs && s.jobs[j] == s'.jobs[j])
  }

  lemma SameDecidedKeeps(s: Store, s': Store)
    requires DecidedOnce(s) && SameDecided(s, s')
    ensures DecidedOnce(s')
  {
  }

  lemma QuietStep(w: Race, e: Act)
    requires ClaimRace.Inv(w) && DecidedOnce(w.db) && ClaimRace.Enabled(w, e) && !e.Commit? && !e.Purge?
    ensures SameDecided(w.db, ClaimRace.Apply(w, e).db)
  {
    hide OneDecisionEach, Exclusive;
    if e.Retire? {
      assert InPhase(w, e.worker, w.workers[e.worker].id);
    }
  }

  lemma PurgeDecidesOnce(s: Store, now: int, cutoff: int)
    requires DecidedOnce(s)
    ensures DecidedOnce(Purged(s, now, cutoff))
  {
  }

  lemma StepDecidesOnce(w: Race, e: Act)
    requires ClaimRace.Inv(w) && DecidedOnce(w.db) && ClaimRace.Enabled(w, e)
    ensures DecidedOnce(ClaimRace.Apply(w, e).db)
  {
    hide Completed, Purged, DecidedOnce, SameDecided;
    if e.Commit? {
      assert InPhase(w, e.worker, w.workers[e.worker].id);
      CommitDecidesOnce(w.db, w.workers[e.worker].id, e.verdict, e.model, e.items, e.findingKey, e.at, e.expiresAt);
    } else if e.Purge? {
      PurgeDecidesOnce(w.db, e.now, e.cutoff);
    } else {
      QuietStep(w, e);
      SameDecidedKeeps(w.db, ClaimRace.Apply(w, e).db);
    }
  }

  /** For any number of workers, while recoveries spare live claims, a job has exactly one
      decision when it succeeded and none otherwise. */
  lemma {:induction false} RacesDecideOnce(es: seq<Act>)
    requires ClaimRace.Valid(es)
    ensures DecidedOnce(ClaimRace.Run(es).db)
  {
    hide DecidedOnce, ClaimRace.Apply, ClaimRace.Enabled, ClaimRace.Inv;
    if es != [] {
      RacesDecideOnce(Before(es));
      ClaimsAreExclusive(Before(es));
      StepDecidesOnce(ClaimRace.Run(Before(es)), es[|es| - 1]);
    } else {
      EmptyDecidesOnce();
    }
  }

  lemma EmptyDecidesOnce()
    ensures DecidedOnce(EMPTY)
  {
  }

  // ---------- When a job has at most one decision ----------

  ghost predicate AtMostOne(s: Store) {
    forall d1, d2 :: d1 in s.decisions && d2 in s.decisions && s.decisions[d1].jobId == s.decisions[d2].jobId ==>
      d1 == d2
  }

  ghost predicate DecisionsIssued(s: Store) {
    forall d :: d in s.decisions ==> d < s.nextId
  }

  ghost predicate HasDecision(s: Store, id: nat) {
    exists d :: d in s.decisions && s.decisions[d].jobId == id
  }

  /** A commit by a worker that holds a job which has a decision already. */
  ghost predicate CommitsAgain(w: Race, e: Act) {
    && e.Commit? && e.worker in w.workers && w.workers[e.worker].Holds?
    && w.workers[e.worker].id in w.db.jobs && HasDecision(w.db, w.workers[e.worker].id)
  }

  lemma CommitAddsDecision(w: Race, e: Act)
    requires DecisionsIssued(w.db) && ClaimRace.Enabled(w, e) && e.Commit?
    ensures DecisionsIssued(ClaimRace.Apply(w, e).db)
    ensures var s, s', id := w.db, ClaimRace.Apply(w, e).db, w.workers[e.worker].id;
            if id in s.jobs then
              var issued := s.nextId + |e.items|;
              issued !in s.decisions && s'.decisions == s.decisions[issued := Decision(id, e.verdict, e.model)]
            else s'.decisions == s.decisions
  {
    hide EvidenceAdded, Sighted;
  }

  /** One step keeps at most one decision per job exactly when it is no such commit. */
  lemma AtMostOneStep(w: Race, e: Act)
    requires AtMostOne(w.db) && DecisionsIssued(w.db) && ClaimRace.Enabled(w, e)
    ensures DecisionsIssued(ClaimRace.Apply(w, e).db)
    ensures AtMostOne(ClaimRace.Apply(w, e).db) <==> !CommitsAgain(w, e)
  {
    hide Completed;
    var s, s' := w.db, ClaimRace.Apply(w, e).db;
    if e.Commit? {
      CommitAddsDecision(w, e);
      var id, issued := w.workers[e.worker].id, s.nextId + |e.items|;
      if CommitsAgain(w, e) {
        var d :| d in s.decisions && s.decisions[d].jobId == id;
        assert d in s'.decisions && issued in s'.decisions && s'.decisions[d].jobId == s'.decisions[issued].jobId;
      } else if id in s.jobs {
        assert forall d :: d in s.decisions ==> s.decisions[d].jobId != id;
      }
    } else {
      assert forall d :: d in s'.decisions ==> d in s.decisions && s.decisions[d] == s'.decisions[d];
    }
  }

  ghost predicate AlwaysAtMostOne(es: seq<Act>) {
    AtMostOne(ClaimRace.Run(es).db) && (es != [] ==> AlwaysAtMostOne(Before(es)))
  }

  ghost predicate NeverCommitsAgain(es: seq<Act>) {
    es != [] ==> NeverCommitsAgain(Before(es)) && !CommitsAgain(ClaimRace.Run(Before(es)), es[|es| - 1])
  }

  lemma {:induction false} DecisionsAreIssued(es: seq<Act>)
    requires Possible(es)
    ensures DecisionsIssued(ClaimRace.Run(es).db)
  {
    hide Completed;
    if es != [] {
      DecisionsAreIssued(Before(es));
      if es[|es| - 1].Commit? {
        CommitAddsDecision(ClaimRace.Run(Before(es)), es[|es| - 1]);
      }
    }
  }

  /** In every interleaving at all, no job ever has two decisions exactly when no worker commits
      a job that has one. */
  lemma {:induction false} OneDecisionHoldsExactly(es: seq<Act>)
    requires Possible(es)
    ensures AlwaysAtMostOne(es) <==> NeverCommitsAgain(es)
  {
    hide ClaimRace.Apply, ClaimRace.Enabled;
    if es != [] {
      OneDecisionHoldsExactly(Before(es));
      DecisionsAreIssued(Before(es));
      if AlwaysAtMostOne(Before(es)) {
        AtMostOneStep(ClaimRace.Run(Before(es)), es[|es| - 1]);
      }
    }
  }

  // ---------- When the claims stay exclusive ----------

  ghost predicate AlwaysInv(es: seq<Act>) {
    ClaimRace.Inv(ClaimRace.Run(es)) && (es != [] ==> AlwaysInv(Before(es)))
  }

  /** In every interleaving at all, the claims are exclusive and running after every event exactly
      when every recovery spares the live claims. */
  lemma {:induction false} ExclusionHoldsExactly(es: seq<Act>)
    requires Possible(es)
    ensures AlwaysInv(es) <==> ClaimRace.Valid(es)
  {
    hide ClaimRace.Apply, ClaimRace.Inv, ClaimRace.Enabled, SparesLiveClaims;
    if es == [] {
      ClaimsAreExclusive(es);
    } else {
      var w, e := ClaimRace.Run(Before(es)), es[|es| - 1];
      ExclusionHoldsExactly(Before(es));
      if ClaimRace.Valid(Before(es)) {
        ClaimsAreExclusive(Before(es));
        if e.Recover? {
          RecoveryIsSafeExactly(w, e.at);
        } else {
          ClaimsAreExclusive(es);
        }
      }
    }
  }

  // ---------- Finished jobs ----------

  /** In any state at all, a finished job changes exactly when a live worker that still holds it
      retries or commits it: a retry that had read the row with attempts left puts it back to
      work, one that had not leaves it failed, and a commit leaves it succeeded. */
  lemma FinishedChangesExactly(w: Race, e: Act, id: nat)
    requires ClaimRace.Enabled(w, e) && id in w.db.jobs && id < w.db.nextId && Finished(w.db.jobs[id])
    requires id in ClaimRace.Apply(w, e).db.jobs
    ensures var job, job' := w.db.jobs[id], ClaimRace.Apply(w, e).db.jobs[id];
            if !Writes(w, e, id) then job' == job
            else if e.Commit? then job'.status == Succeeded
            else if HasAttempts(w.workers[e.worker].row) then job'.status == Retry
            else job'.status == Failed
  {
    hide EvidenceAdded, Sighted;
  }

  predicate HasAttempts(row: Job) {
    row.attempts < row.maxAttempts
  }

  /** The event is a retry or a commit by a live worker that holds the job. */
  ghost predicate Writes(w: Race, e: Act, id: nat) {
    (e.Retire? || e.Commit?) && InPhase(w, e.worker, id)
  }

  predicate Outlives(e: Act, job: Job) {
    e.Purge? && job.completedAt.Some? && job.completedAt.value < e.cutoff
  }

  lemma FinishedStep(w: Race, e: Act, id: nat)
    requires ClaimRace.Inv(w) && ClaimRace.Enabled(w, e) && id in w.db.jobs && Finished(w.db.jobs[id])
    ensures var job, jobs' := w.db.jobs[id], ClaimRace.Apply(w, e).db.jobs;
            && (id in jobs' <==> !Outlives(e, job))
            && (id in jobs' ==> jobs'[id] == job)
  {
    hide EvidenceAdded, Sighted;
    if Writes(w, e, id) {
      assert false;
    }
  }

  lemma GoneStep(w: Race, e: Act, id: nat)
    requires ClaimRace.Inv(w) && ClaimRace.Enabled(w, e) && id !in w.db.jobs && id < w.db.nextId
    ensures id !in ClaimRace.Apply(w, e).db.jobs && id < ClaimRace.Apply(w, e).db.nextId
  {
    hide EvidenceAdded, Sighted;
  }

  /** While recoveries spare live claims, a finished job never changes: it is there, as it was,
      exactly until a purge at a cut-off after its completion. */
  lemma {:induction false} FinishedIsFinal(es: seq<Act>, more: seq<Act>, id: nat)
    requires ClaimRace.Valid(es + more) && id in ClaimRace.Run(es).db.jobs && Finished(ClaimRace.Run(es).db.jobs[id])
    ensures ClaimRace.Valid(es)
    ensures var job, jobs' := ClaimRace.Run(es).db.jobs[id], ClaimRace.Run(es + more).db.jobs;
            && id < ClaimRace.Run(es + more).db.nextId
            && (id in jobs' <==> forall e :: e in more ==> !Outlives(e, job))
            && (id in jobs' ==> jobs'[id] == job)
    decreases |more|
  {
    hide ClaimRace.Apply, ClaimRace.Enabled, ClaimRace.Inv, Finished;
    if more == [] {
      assert es + more == es;
      ClaimsAreExclusive(es);
      IssuedRow(ClaimRace.Run(es), id);
    } else {
      var front, e := Before(more), more[|more| - 1];
      assert (es + more)[..|es + more| - 1] == es + front && (es + more)[|es + more| - 1] == e;
      FinishedIsFinal(es, front, id);
      ClaimsAreExclusive(es + front);
      assert forall x :: x in more <==> x in front || x == e;
      var w := ClaimRace.Run(es + front);
      if id in w.db.jobs {
        FinishedStep(w, e, id);
        ClaimsAreExclusive(es + more);
        IssuedIdsStay(w, e);
      } else {
        GoneStep(w, e, id);
      }
    }
  }

  lemma IssuedRow(w: Race, id: nat)
    requires ClaimRace.Inv(w) && id in w.db.jobs
    ensures id < w.db.nextId
  {
  }

  lemma IssuedIdsStay(w: Race, e: Act)
    ensures w.db.nextId <= ClaimRace.Apply(w, e).db.nextId
  {
    hide EvidenceAdded, Sighted;
  }
}
