/** Finished jobs of the review queue are final. */
module Finality {
  import opened Evidence
  import opened Review
  import opened ReviewRuns
  import opened Attempts

  /** A purge at a cut-off after the completion of a finished job. */
  predicate Outlives(e: Event, job: Job) {
    e.Purge? && job.completedAt.Some? && job.completedAt.value < e.cutoff
  }

  lemma FinishedStep(c: Config, w: World, e: Event, id: nat)
    requires RowsOk(c, w) && Enabled(c, w, e) && id in w.db.jobs && Finished(w.db.jobs[id])
    ensures var job, jobs' := w.db.jobs[id], Apply(c, w, e).db.jobs;
            && (id in jobs' <==> !Outlives(e, job))
            && (id in jobs' ==> jobs'[id] == job)
            && id < w.db.nextId <= Apply(c, w, e).db.nextId
    ensures !(e.Claim? && e.id == id)
  {
    hide EvidenceAdded, Sighted, KeysUnique;
    if id in Apply(c, w, e).db.jobs {
      RowAfter(c, w, e, id);
    }
  }

  lemma GoneStep(c: Config, w: World, e: Event, id: nat)
    requires RowsOk(c, w) && Enabled(c, w, e) && id !in w.db.jobs && id < w.db.nextId
    ensures id !in Apply(c, w, e).db.jobs && id < Apply(c, w, e).db.nextId
    ensures !(e.Claim? && e.id == id)
  {
    hide EvidenceAdded, Sighted, KeysUnique;
  }

  /** In every run a finished job never changes: it is there, as it was, exactly until a purge at
      a cut-off after its completion; and no later round claims it. */
  lemma {:induction false} FinishedIsFinal(c: Config, es: seq<Event>, more: seq<Event>, id: nat)
    requires Valid(c, es + more) && id in Run(c, es).db.jobs && Finished(Run(c, es).db.jobs[id])
    ensures Valid(c, es)
    ensures var job, jobs' := Run(c, es).db.jobs[id], Run(c, es + more).db.jobs;
            && (id in jobs' <==> forall e :: e in more ==> !Outlives(e, job))
            && (id in jobs' ==> jobs'[id] == job)
    ensures id < Run(c, es + more).db.nextId && forall e :: e in more ==> !(e.Claim? && e.id == id)
    decreases |more|
  {
    hide Decided, RowConsistent, Apply, Enabled, Finished;
    if more == [] {
      assert es + more == es;
      RunsKeepInv(c, es);
    } else {
      var all, front, e := es + more, Front(more), Last(more);
      assert Front(all) == es + front && Last(all) == e;
      FinishedIsFinal(c, es, front, id);
      RunsKeepInv(c, es + front);
      assert forall x :: x in more <==> x in front || x == e;
      if id in Run(c, es + front).db.jobs {
        FinishedStep(c, Run(c, es + front), e, id);
      } else {
        GoneStep(c, Run(c, es + front), e, id);
      }
    }
  }

  // ---------- Evidence and decisions ----------

  /** A purge after the expiry of an evidence row. */
  predicate Expires(e: Event, row: EvidenceRow) {
    e.Purge? && row.expiresAt < e.at
  }

  lemma EvidenceStep(c: Config, w: World, e: Event, i: nat)
    requires Inv(c, w) && Enabled(c, w, e) && i in w.db.evidence
    ensures var row, rows' := w.db.evidence[i], Apply(c, w, e).db.evidence;
            && row.jobId in w.db.jobs && Finished(w.db.jobs[row.jobId])
            && (i in rows' <==> !Expires(e, row) && !Outlives(e, w.db.jobs[row.jobId]))
            && (i in rows' ==> rows'[i] == row)
            && i < w.db.nextId <= Apply(c, w, e).db.nextId
  {
    hide Sighted, KeysUnique, OneDecisionEach, Chronological, FindingsTrack, CitationsBounded;
    if e.Complete? {
      EvidenceAddedRow(w.db.evidence, w.db.nextId, w.worker.id, e.items, e.at + c.evidenceRetention, i);
    }
  }

  lemma NoEvidenceStep(c: Config, w: World, e: Event, i: nat)
    requires Inv(c, w) && Enabled(c, w, e) && i !in w.db.evidence && i < w.db.nextId
    ensures i !in Apply(c, w, e).db.evidence && i < Apply(c, w, e).db.nextId
  {
    hide Sighted, Decided, KeysUnique;
    if e.Complete? {
      EvidenceAddedRow(w.db.evidence, w.db.nextId, w.worker.id, e.items, e.at + c.evidenceRetention, i);
    }
  }

  /** In every run an evidence row never changes: it is there, as it was, exactly until a purge
      comes after its expiry or has a cut-off after the completion of its job. */
  lemma {:induction false} EvidenceIsFinal(c: Config, es: seq<Event>, more: seq<Event>, i: nat)
    requires Valid(c, es + more) && i in Run(c, es).db.evidence
    ensures Valid(c, es) && Run(c, es).db.evidence[i].jobId in Run(c, es).db.jobs
    ensures var row, rows' := Run(c, es).db.evidence[i], Run(c, es + more).db.evidence;
            var job := Run(c, es).db.jobs[row.jobId];
            && (i in rows' <==> forall e :: e in more ==> !Expires(e, row) && !Outlives(e, job))
            && (i in rows' ==> rows'[i] == row)
    ensures i < Run(c, es + more).db.nextId
    decreases |more|
  {
    hide Apply, Enabled, Finished, Expires, Outlives, Inv;
    PrefixOfRun(c, es, more);
    if more == [] {
      assert es + more == es;
      EvidenceIsIssued(c, es, i);
    } else {
      var all, front, e := es + more, Front(more), Last(more);
      assert Front(all) == es + front && Last(all) == e;
      EvidenceIsFinal(c, es, front, i);
      RunsKeepInv(c, es + front);
      assert forall x :: x in more <==> x in front || x == e;
      var w := Run(c, es + front);
      if i in w.db.evidence {
        EvidenceStep(c, w, e, i);
        JobOfEvidence(c, es, front, i);
      } else {
        NoEvidenceStep(c, w, e, i);
      }
    }
  }

  lemma {:induction false} PrefixOfRun(c: Config, es: seq<Event>, more: seq<Event>)
    requires Valid(c, es + more)
    ensures Valid(c, es)
    decreases |more|
  {
    if more == [] {
      assert es + more == es;
    } else {
      assert Front(es + more) == es + Front(more);
      PrefixOfRun(c, es, Front(more));
    }
  }

  lemma EvidenceIsIssued(c: Config, es: seq<Event>, i: nat)
    requires Valid(c, es) && i in Run(c, es).db.evidence
    ensures var s := Run(c, es).db;
            i < s.nextId && s.evidence[i].jobId in s.jobs && Finished(s.jobs[s.evidence[i].jobId])
  {
    RunsKeepInv(c, es);
  }

  lemma JobOfEvidence(c: Config, es: seq<Event>, more: seq<Event>, i: nat)
    requires Valid(c, es + more) && i in Run(c, es).db.evidence && i in Run(c, es + more).db.evidence
    requires Run(c, es + more).db.evidence[i] == Run(c, es).db.evidence[i]
    ensures var j, s, s' := Run(c, es).db.evidence[i].jobId, Run(c, es).db, Run(c, es + more).db;
            j in s.jobs && j in s'.jobs && s'.jobs[j] == s.jobs[j]
  {
    PrefixOfRun(c, es, more);
    EvidenceIsIssued(c, es, i);
    EvidenceIsIssued(c, es + more, i);
    FinishedIsFinal(c, es, more, Run(c, es).db.evidence[i].jobId);
  }

  lemma DecisionStep(c: Config, w: World, e: Event, d: nat)
    requires Inv(c, w) && Enabled(c, w, e) && d in w.db.decisions
    ensures var decision, decisions' := w.db.decisions[d], Apply(c, w, e).db.decisions;
            && decision.jobId in w.db.jobs && Finished(w.db.jobs[decision.jobId])
            && (d in decisions' <==> !Outlives(e, w.db.jobs[decision.jobId]))
            && (d in decisions' ==> decisions'[d] == decision)
            && d < w.db.nextId <= Apply(c, w, e).db.nextId
  {
    hide EvidenceAdded, Sighted, KeysUnique, Chronological, FindingsTrack, CitationsBounded, EvidenceAttached;
    assert RowConsistent(c, w.db.jobs[w.db.decisions[d].jobId], w.clock);
  }

  lemma NoDecisionStep(c: Config, w: World, e: Event, d: nat)
    requires Inv(c, w) && Enabled(c, w, e) && d !in w.db.decisions && d < w.db.nextId
    ensures d !in Apply(c, w, e).db.decisions && d < Apply(c, w, e).db.nextId
  {
    hide EvidenceAdded, Sighted, KeysUnique, Decided;
  }

  lemma DecisionIsIssued(c: Config, es: seq<Event>, d: nat)
    requires Valid(c, es) && d in Run(c, es).db.decisions
    ensures var s := Run(c, es).db;
            d < s.nextId && s.decisions[d].jobId in s.jobs && Finished(s.jobs[s.decisions[d].jobId])
  {
    RunsKeepInv(c, es);
    var w := Run(c, es);
    assert RowConsistent(c, w.db.jobs[w.db.decisions[d].jobId], w.clock);
  }

  lemma JobOfDecision(c: Config, es: seq<Event>, more: seq<Event>, d: nat)
    requires Valid(c, es + more) && d in Run(c, es).db.decisions && d in Run(c, es + more).db.decisions
    requires Run(c, es + more).db.decisions[d] == Run(c, es).db.decisions[d]
    ensures var j, s, s' := Run(c, es).db.decisions[d].jobId, Run(c, es).db, Run(c, es + more).db;
            j in s.jobs && j in s'.jobs && s'.jobs[j] == s.jobs[j]
  {
    PrefixOfRun(c, es, more);
    DecisionIsIssued(c, es, d);
    DecisionIsIssued(c, es + more, d);
    FinishedIsFinal(c, es, more, Run(c, es).db.decisions[d].jobId);
  }

  /** In every run a decision never changes: it is there, as it was, exactly until a purge has a
      cut-off after the completion of its job. */
  lemma {:induction false} DecisionIsFinal(c: Config, es: seq<Event>, more: seq<Event>, d: nat)
    requires Valid(c, es + more) && d in Run(c, es).db.decisions
    ensures Valid(c, es) && Run(c, es).db.decisions[d].jobId in Run(c, es).db.jobs
    ensures var decision, decisions' := Run(c, es).db.decisions[d], Run(c, es + more).db.decisions;
            var job := Run(c, es).db.jobs[decision.jobId];
            && (d in decisions' <==> forall e :: e in more ==> !Outlives(e, job))
            && (d in decisions' ==> decisions'[d] == decision)
    ensures d < Run(c, es + more).db.nextId
    decreases |more|
  {
    hide Apply, Enabled, Finished, Outlives, Inv;
    PrefixOfRun(c, es, more);
    if more == [] {
      assert es + more == es;
      DecisionIsIssued(c, es, d);
    } else {
      var all, front, e := es + more, Front(more), Last(more);
      assert Front(all) == es + front && Last(all) == e;
      DecisionIsFinal(c, es, front, d);
      RunsKeepInv(c, es + front);
      assert forall x :: x in more <==> x in front || x == e;
      var w := Run(c, es + front);
      if d in w.db.decisions {
        DecisionStep(c, w, e, d);
        JobOfDecision(c, es, front, d);
      } else {
        NoDecisionStep(c, w, e, d);
      }
    }
  }
}
