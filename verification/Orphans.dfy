/** Rows that a crash left running: what frees them, and what does not. */
module Orphans {
  import opened Basics
  import Json
  import opened Review
  import opened ReviewRuns
  import opened Attempts
  import opened ReviewDrain

  /** A running row that no worker holds. */
  ghost predicate Orphan(w: World, id: nat) {
    IsRunning(w.db, id) && !Holds(w, id)
  }

  /** A row is orphaned by a crash of the worker that holds it, and by nothing else. */
  lemma OrphanedExactly(c: Config, w: World, e: Event, id: nat)
    requires RowsOk(c, w) && Enabled(c, w, e) && !Orphan(w, id)
    ensures Orphan(Apply(c, w, e), id) <==> e.Crash? && Holds(w, id)
  {
    if id in w.db.jobs && id in Apply(c, w, e).db.jobs {
      RowAfter(c, w, e, id);
    } else if id in Apply(c, w, e).db.jobs {
      NewRowsAreFresh(c, w, e, id);
    }
  }

  /** It stays so, unchanged, until a restart finds its claim abandoned. */
  lemma OrphanStaysExactly(c: Config, w: World, e: Event, id: nat)
    requires RowsOk(c, w) && Enabled(c, w, e) && Orphan(w, id)
    ensures var w' := Apply(c, w, e);
            && (Orphan(w', id) <==> !Recovers(w, e, id))
            && (Orphan(w', id) ==> w'.db.jobs[id] == w.db.jobs[id])
            && id in w'.db.jobs && w'.db.jobs[id].attempts == w.db.jobs[id].attempts
            && (Recovers(w, e, id) ==> w'.db.jobs[id].status == Retry)
  {
    assert id in Apply(c, w, e).db.jobs;
    RowAfter(c, w, e, id);
  }

  /** The row is no longer the claim that took attempt `a`: it was given up, or purged. */
  ghost predicate MovedOn(w: World, id: nat, a: nat) {
    && id < w.db.nextId
    && (id in w.db.jobs ==>
          var job := w.db.jobs[id];
          job.attempts > a || (job.attempts == a && job.status != Running))
  }

  lemma MovedOnStays(c: Config, w: World, e: Event, id: nat, a: nat)
    requires RowsOk(c, w) && Enabled(c, w, e) && MovedOn(w, id, a)
    ensures MovedOn(Apply(c, w, e), id, a)
  {
    hide Enabled, RowConsistent, EvidenceAdded, Sighted;
    if id in Apply(c, w, e).db.jobs {
      if id in w.db.jobs {
        RowAfter(c, w, e, id);
      } else {
        NewRowsAreFresh(c, w, e, id);
      }
    }
  }

  /** A restart that comes more than fifteen minutes after a time. */
  predicate Frees(e: Event, claimedAt: int) {
    e.Start? && claimedAt < e.at - 900
  }

  ghost predicate Unfreed(w: World, w': World, id: nat) {
    Orphan(w', id) && id in w.db.jobs && w'.db.jobs[id] == w.db.jobs[id]
  }

  lemma RunningIsClaimed(c: Config, w: World, id: nat)
    requires RowsOk(c, w) && IsRunning(w.db, id)
    ensures w.db.jobs[id].claimedAt.Some?
  {
    assert RowConsistent(c, w.db.jobs[id], w.clock);
  }

  /** Over every run, an orphaned row is still there as it was exactly when no restart so far
      came more than fifteen minutes after its claim; rounds, purges, submissions, crashes and
      earlier restarts never free it. */
  lemma {:induction false} OrphansWaitExactly(c: Config, es: seq<Event>, more: seq<Event>, id: nat)
    requires Valid(c, es + more) && Orphan(Run(c, es), id)
    ensures Run(c, es).db.jobs[id].claimedAt.Some?
    ensures var w, w' := Run(c, es), Run(c, es + more);
            var job := w.db.jobs[id];
            && (Unfreed(w, w', id) <==> forall e :: e in more ==> !Frees(e, job.claimedAt.value))
            && (!Unfreed(w, w', id) ==> MovedOn(w', id, job.attempts))
    decreases |more|
  {
    hide Decided, RowConsistent, Apply, Enabled;
    var w, all := Run(c, es), es + more;
    if more == [] {
      assert all == es;
      RunsKeepInv(c, es);
      RunningIsClaimed(c, w, id);
    } else {
      var front, e := Front(more), Last(more);
      assert Front(all) == es + front && Last(all) == e;
      OrphansWaitExactly(c, es, front, id);
      RunsKeepInv(c, es + front);
      assert forall x :: x in more <==> x in front || x == e;
      OrphanOrMovedStep(c, Run(c, es + front), e, id, w.db.jobs[id]);
    }
  }

  lemma OrphanOrMovedStep(c: Config, w: World, e: Event, id: nat, job: Job)
    requires RowsOk(c, w) && Enabled(c, w, e) && job.claimedAt.Some?
    requires (Orphan(w, id) && w.db.jobs[id] == job) || MovedOn(w, id, job.attempts)
    ensures var w' := Apply(c, w, e);
            if Orphan(w, id) && w.db.jobs[id] == job && !Frees(e, job.claimedAt.value)
            then Orphan(w', id) && w'.db.jobs[id] == job
            else MovedOn(w', id, job.attempts)
  {
    hide RowsOk, Enabled, Apply;
    if Orphan(w, id) && w.db.jobs[id] == job {
      OrphanStaysExactly(c, w, e, id);
      IssuedIdsStay(c, w, e, id);
    } else {
      MovedOnStays(c, w, e, id, job.attempts);
    }
  }

  lemma IssuedIdsStay(c: Config, w: World, e: Event, id: nat)
    requires RowsOk(c, w) && id in w.db.jobs
    ensures id < Apply(c, w, e).db.nextId
  {
  }

  /** Such a row can be met: a worker that crashes in its first round and comes back ten seconds
      later is idle, nothing is due, and the job is still running. */
  lemma QuickRestartLeavesOrphan() returns (c: Config, es: seq<Event>)
    ensures Valid(c, es) && Run(c, es).worker.Idle? && es != [] && Last(es) == Start(10)
    ensures Orphan(Run(c, es), 0) && Run(c, es).db.jobs[0].claimedAt == Some(0)
  {
    c := Config(1, 1, 0, 0);
    var request := Request("latest", Json.Json.Null, "api", Json.Json.Null, 1);
    var claimed := FirstClaim(c, request);
    OneMore(c, claimed, Crash(0));
    OneMore(c, claimed + [Crash(0)], Start(10));
    es := claimed + [Crash(0)] + [Start(10)];
  }
}
