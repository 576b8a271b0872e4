/** What holds of the review queue at the end of every run. */
module ReviewHistory {
  import opened Review
  import opened ReviewRuns

  // ---------- Decisions and jobs ----------

  ghost function DecisionsOf(s: Store, j: nat): set<nat> {
    set d | d in s.decisions && s.decisions[d].jobId == j
  }

  /** A stored job has exactly one decision when it succeeded and none otherwise; it has a
      result exactly when it succeeded and a completion time exactly when it is finished. */
  lemma OneDecisionPerSucceededJob(c: Config, es: seq<Event>, j: nat)
    requires Valid(c, es) && j in Run(c, es).db.jobs
    ensures var s := Run(c, es).db;
            && |DecisionsOf(s, j)| == (if s.jobs[j].status == Succeeded then 1 else 0)
            && (s.jobs[j].result.Some? <==> s.jobs[j].status == Succeeded)
            && (s.jobs[j].completedAt.Some? <==> Finished(s.jobs[j]))
  {
    RunsKeepInv(c, es);
    var s := Run(c, es).db;
    assert RowConsistent(c, s.jobs[j], Run(c, es).clock);
    if s.jobs[j].result.Some? {
      var d := s.jobs[j].result.value.decisionId;
      assert DecisionsOf(s, j) == {d};
    } else {
      assert DecisionsOf(s, j) == {};
    }
  }

  /** No row outlives the row it hangs on. */
  lemma NothingDangles(c: Config, es: seq<Event>)
    requires Valid(c, es)
    ensures var s := Run(c, es).db;
            && (forall e :: e in s.evidence ==> s.evidence[e].jobId in s.jobs)
            && (forall d :: d in s.decisions ==> s.decisions[d].jobId in s.jobs)
            && (forall k :: k in s.findings ==> s.findings[k].decisionId in s.decisions)
  {
    RunsKeepInv(c, es);
    var s := Run(c, es).db;
    forall k | k in s.findings ensures s.findings[k].decisionId in s.decisions {
      assert Carries(s, s.findings[k].decisionId, k);
    }
  }

  // ---------- Citations ----------

  /** Every standing decision cites only ids among e1 to en for an n within its job's row
      limit, which is within the configured bound. */
  lemma CitationsStayWithinEvidence(c: Config, es: seq<Event>, d: nat)
    requires Valid(c, es) && d in Run(c, es).db.decisions
    ensures var s := Run(c, es).db;
            && s.decisions[d].jobId in s.jobs
            && CitesAmong(s.decisions[d].verdict.cited, s.jobs[s.decisions[d].jobId].request.rowLimit)
            && s.jobs[s.decisions[d].jobId].request.rowLimit <= c.promptMaxRows
  {
    RunsKeepInv(c, es);
    assert RowConsistent(c, Run(c, es).db.jobs[Run(c, es).db.decisions[d].jobId], Run(c, es).clock);
  }

  ghost function EvidenceOf(s: Store, j: nat): set<nat> {
    set e | e in s.evidence && s.evidence[e].jobId == j
  }

  lemma {:induction false} RangeSize(s: set<nat>, lo: nat, hi: nat)
    requires lo <= hi && forall i :: i in s <==> lo <= i < hi
    ensures |s| == hi - lo
  {
    if lo < hi {
      RangeSize(s - {hi - 1}, lo, hi - 1);
    }
  }

  /** A commit stores one evidence row per supplied item and nothing else for its job, and
      cites only ids among e1 to en for that very number n. */
  lemma CommitCitesItsOwnEvidence(c: Config, es: seq<Event>)
    requires es != [] && Valid(c, es) && Last(es).Complete?
    ensures var before, after, e := Run(c, Front(es)), Run(c, es).db, Last(es);
            && before.worker.Holding?
            && |EvidenceOf(after, before.worker.id)| == |e.items|
            && CitesAmong(e.verdict.cited, |EvidenceOf(after, before.worker.id)|)
  {
    var w, s', e := Run(c, Front(es)), Run(c, es).db, Last(es);
    RunsKeepInv(c, Front(es));
    var s, j := w.db, w.worker.id;
    var next, n := s.nextId, |e.items|;
    forall i: nat ensures i in EvidenceOf(s', j) <==> next <= i < next + n {
      EvidenceAddedRow(s.evidence, next, j, e.items, e.at + c.evidenceRetention, i);
    }
    RangeSize(EvidenceOf(s', j), next, next + n);
    CheckedCitationsAreAmong(e.verdict.cited, e.items, n);
  }

  // ---------- Findings ----------

  /** A finding stands for a key exactly when some decision of that key does, and it points at
      the one committed last. */
  lemma FindingIsLatestDecision(c: Config, es: seq<Event>, key: string)
    requires Valid(c, es)
    ensures var s := Run(c, es).db;
            && (key in s.findings <==> exists d: nat :: Carries(s, d, key))
            && (key in s.findings ==>
                  && Carries(s, s.findings[key].decisionId, key)
                  && forall d: nat :: Carries(s, d, key) ==> d <= s.findings[key].decisionId)
  {
    RunsKeepInv(c, es);
  }

  /** Completions for a key since a decision of that key has been standing without a break. */
  ghost function Streak(c: Config, es: seq<Event>, key: string): nat {
    if es == [] || !(exists d: nat :: Carries(Run(c, es).db, d, key)) then 0
    else Streak(c, Front(es), key) + if Sights(Last(es), key) then 1 else 0
  }

  ghost function Count(findings: map<string, Finding>, key: string): nat {
    if key in findings then findings[key].occurrences else 0
  }

  ghost predicate Sights(e: Event, key: string) {
    e.Complete? && e.findingKey == key
  }

  lemma StepCounts(c: Config, w: World, e: Event, key: string)
    requires Inv(c, w) && Enabled(c, w, e) && key in Apply(c, w, e).db.findings
    ensures Count(Apply(c, w, e).db.findings, key) == Count(w.db.findings, key) + if Sights(e, key) then 1 else 0
  {
    assert e.Purge? ==> key in w.db.findings;
  }

  /** A finding's count is the number of completions for its key since it came to stand,
      whatever was purged in between. */
  lemma {:induction false} OccurrencesCountCompletions(c: Config, es: seq<Event>, key: string)
    requires Valid(c, es)
    ensures Streak(c, es, key) == Count(Run(c, es).db.findings, key)
  {
    FindingIsLatestDecision(c, es, key);
    if es != [] && key in Run(c, es).db.findings {
      OccurrencesCountCompletions(c, Front(es), key);
      RunsKeepInv(c, Front(es));
      StepCounts(c, Run(c, Front(es)), Last(es), key);
    }
  }

  /** A purge cuts cleanly: exactly the jobs finished before the cut-off go, unfinished ones
      never; and a finding either stays as it was or goes with every decision of its key. */
  lemma PurgeCutsCleanly(c: Config, es: seq<Event>, now: int, cutoff: int, key: string)
    requires Valid(c, es)
    ensures var s, s' := Run(c, es).db, Purged(Run(c, es).db, now, cutoff);
            && (forall j :: j in s.jobs && !Finished(s.jobs[j]) ==> j in s'.jobs && s'.jobs[j] == s.jobs[j])
            && (forall j :: j in s'.jobs <==> j in s.jobs && !Outlived(s.jobs[j], cutoff))
            && (key in s'.findings ==> key in s.findings && s'.findings[key] == s.findings[key])
            && (key !in s'.findings ==> forall d: nat :: !Carries(s', d, key))
  {
    RunsKeepInv(c, es);
    var w := Run(c, es);
    forall j | j in w.db.jobs ensures w.db.jobs[j].completedAt.Some? <==> Finished(w.db.jobs[j]) {
      assert RowConsistent(c, w.db.jobs[j], w.clock);
    }
    PurgeKeepsFindings(c, w, now, cutoff);
  }

  // ---------- Findings in total ----------

  ghost function Total(findings: map<string, Finding>): nat {
    if findings == map[] then 0
    else var k :| k in findings; findings[k].occurrences + Total(findings - {k})
  }

  lemma {:induction false} TotalWithout(findings: map<string, Finding>, k: string)
    requires k in findings
    ensures Total(findings) == findings[k].occurrences + Total(findings - {k})
  {
    var x :| x in findings && Total(findings) == findings[x].occurrences + Total(findings - {x});
    if x != k {
      TotalWithout(findings - {x}, k);
      TotalWithout(findings - {k}, x);
      assert findings - {x} - {k} == findings - {k} - {x};
    }
  }

  lemma SightingAddsOne(findings: map<string, Finding>, key: string, decisionId: nat, now: int)
    ensures Total(Sighted(findings, key, decisionId, now)) == Total(findings) + 1
  {
    var after := Sighted(findings, key, decisionId, now);
    TotalWithout(after, key);
    assert after - {key} == findings - {key};
    if key in findings {
      TotalWithout(findings, key);
    } else {
      assert findings - {key} == findings;
    }
  }

  lemma CompletionEffect(c: Config, w: World, e: Event)
    requires IdsIssued(w.db) && HeldIsRunning(w) && w.worker.Holding? && e.Complete?
    ensures var s, s', issued := w.db, Apply(c, w, e).db, w.db.nextId + |e.items|;
            && s'.findings == Sighted(s.findings, e.findingKey, issued, e.at)
            && issued !in s.decisions
            && s'.decisions == s.decisions[issued := Decision(w.worker.id, e.verdict, e.model)]
  {
  }

  lemma OthersAddNothing(c: Config, w: World, e: Event)
    requires !e.Purge? && !e.Complete?
    ensures var s, s' := w.db, Apply(c, w, e).db;
            s'.findings == s.findings && s'.decisions == s.decisions
  {
  }

  lemma CommitAddsUp(s: Store, s': Store, key: string, issued: nat, decision: Decision, now: int)
    requires issued !in s.decisions && s'.decisions == s.decisions[issued := decision]
    requires s'.findings == Sighted(s.findings, key, issued, now)
    ensures Total(s'.findings) == Total(s.findings) + 1 && |s'.decisions| == |s.decisions| + 1
  {
    SightingAddsOne(s.findings, key, issued, now);
  }

  lemma StepAddsUp(c: Config, w: World, e: Event)
    requires IdsIssued(w.db) && HeldIsRunning(w) && !e.Purge? && (e.Complete? ==> w.worker.Holding?)
    ensures Total(Apply(c, w, e).db.findings) - Total(w.db.findings) == |Apply(c, w, e).db.decisions| - |w.db.decisions|
  {
    if e.Complete? {
      CompletionEffect(c, w, e);
      CommitAddsUp(w.db, Apply(c, w, e).db, e.findingKey, w.db.nextId + |e.items|,
                   Decision(w.worker.id, e.verdict, e.model), e.at);
    } else {
      OthersAddNothing(c, w, e);
    }
  }

  ghost predicate NoPurge(es: seq<Event>) {
    forall e :: e in es ==> !e.Purge?
  }

  /** As long as nothing is purged, the counts of all findings add up to the decisions. */
  lemma {:induction false} FindingsAddUpToDecisions(c: Config, es: seq<Event>)
    requires Valid(c, es) && NoPurge(es)
    ensures Total(Run(c, es).db.findings) == |Run(c, es).db.decisions|
  {
    if es == [] {
      assert Run(c, es).db == EMPTY;
    } else {
      assert Last(es) in es && forall x :: x in Front(es) ==> x in es;
      FindingsAddUpToDecisions(c, Front(es));
      RunsKeepInv(c, Front(es));
      StepAddsUp(c, Run(c, Front(es)), Last(es));
    }
  }
}
