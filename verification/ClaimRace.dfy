/** Any number of workers claiming from one job table: the read of a candidate and its guarded
    update are separate steps, and everything else may happen in between. */
module ClaimRace {
  import opened Basics
  import opened Evidence
  import opened Review

  /** A worker that won a claim goes on with the row as the claim returned it. */
  datatype Phase = Idle | HasRead(id: nat, at: int) | Holds(id: nat, row: Job)

  /** Live workers only: a dead worker is no longer in the map. */
  datatype World = World(db: Store, workers: map<nat, Phase>)

  datatype Event =
    | Join(worker: nat)
    | Read(worker: nat, at: int, id: nat)
    | ReadNothing(worker: nat)
    | Update(worker: nat)
    | Retire(worker: nat, error: Failure, at: int)
    | Commit(worker: nat, verdict: Verdict, model: Model, items: seq<Item>, findingKey: string, at: int, expiresAt: int)
    | Die(worker: nat)
    | Recover(at: int)
    | Submit(key: string, request: Request, maxAttempts: nat, at: int)
    | Purge(now: int, cutoff: int)

  ghost predicate InPhase(w: World, worker: nat, id: nat) {
    worker in w.workers && w.workers[worker].Holds? && w.workers[worker].id == id
  }

  ghost predicate Enabled(w: World, e: Event) {
    match e
    case Join(worker) => worker !in w.workers
    case Read(worker, at, id) => worker in w.workers && w.workers[worker].Idle? && OldestDue(w.db.jobs, at, id)
    case ReadNothing(worker) => worker in w.workers && w.workers[worker].Idle?
    case Update(worker) => worker in w.workers && w.workers[worker].HasRead?
    case Retire(worker, _, _) => worker in w.workers && w.workers[worker].Holds?
    case Commit(worker, _, _, _, _, _, _) => worker in w.workers && w.workers[worker].Holds?
    case Die(worker) => worker in w.workers
    case _ => true
  }

  function Apply(w: World, e: Event): World {
    match e
    case Join(worker) => w.(workers := w.workers[worker := Idle])
    case Read(worker, at, id) => w.(workers := w.workers[worker := HasRead(id, at)])
    case ReadNothing(_) => w
    case Update(worker) =>
      if worker !in w.workers || !w.workers[worker].HasRead? then w else
      var id, at := w.workers[worker].id, w.workers[worker].at;
      var won := id in w.db.jobs && Claimable(w.db.jobs[id]);
      World(Claimed(w.db, id, at),
            w.workers[worker := if won then Holds(id, ClaimedRow(w.db.jobs[id], at)) else Idle])
    case Retire(worker, error, at) =>
      if worker !in w.workers || !w.workers[worker].Holds? then w else
      var id, row := w.workers[worker].id, w.workers[worker].row;
      World(Retried(w.db, id, row.attempts, row.maxAttempts, error, JobDelay(row.attempts), at),
            w.workers[worker := Idle])
    case Commit(worker, verdict, model, items, findingKey, at, expiresAt) =>
      if worker !in w.workers || !w.workers[worker].Holds? then w else
      World(Completed(w.db, w.workers[worker].id, verdict, model, items, findingKey, at, expiresAt),
            w.workers[worker := Idle])
    case Die(worker) => w.(workers := w.workers - {worker})
    case Recover(at) => w.(db := Recovered(w.db, at))
    case Submit(key, request, maxAttempts, at) => w.(db := Created(w.db, key, request, maxAttempts, at))
    case Purge(now, cutoff) => w.(db := Purged(w.db, now, cutoff))
  }

  /** A recovery that hits only claims whose worker has died. */
  ghost predicate SparesLiveClaims(w: World, at: int) {
    forall worker, id :: InPhase(w, worker, id) && id in w.db.jobs ==> !Abandoned(w.db.jobs[id], at)
  }

  /** No two live workers hold the same job. */
  ghost predicate Exclusive(w: World) {
    forall a, b, id :: InPhase(w, a, id) && InPhase(w, b, id) ==> a == b
  }

  ghost predicate Inv(w: World) {
    && Exclusive(w)
    && (forall worker, id :: InPhase(w, worker, id) ==> id in w.db.jobs && w.db.jobs[id].status == Running)
    && (forall id :: id in w.db.jobs ==> id < w.db.nextId)
  }

  lemma UpdateKeepsInv(w: World, worker: nat)
    requires Inv(w) && Enabled(w, Update(worker))
    ensures Inv(Apply(w, Update(worker)))
  {
    var w' := Apply(w, Update(worker));
    var id := w.workers[worker].id;
    forall a, b, i | InPhase(w', a, i) && InPhase(w', b, i) ensures a == b {
      if a != worker { assert InPhase(w, a, i); }
      if b != worker { assert InPhase(w, b, i); }
    }
    forall a, i | InPhase(w', a, i) ensures i in w'.db.jobs && w'.db.jobs[i].status == Running {
      if a != worker { assert InPhase(w, a, i); }
    }
  }

  lemma ReleaseKeepsInv(w: World, e: Event)
    requires Inv(w) && Enabled(w, e) && (e.Retire? || e.Commit?)
    ensures Inv(Apply(w, e))
  {
    var w' := Apply(w, e);
    var id := w.workers[e.worker].id;
    assert InPhase(w, e.worker, id);
    forall a, b, i | InPhase(w', a, i) && InPhase(w', b, i) ensures a == b {
      assert InPhase(w, a, i) && InPhase(w, b, i);
    }
    forall a, i | InPhase(w', a, i) ensures i in w'.db.jobs && w'.db.jobs[i].status == Running {
      assert InPhase(w, a, i) && a != e.worker && i != id;
    }
  }

  lemma OthersKeepInv(w: World, e: Event)
    requires Inv(w) && Enabled(w, e) && !e.Update? && !e.Retire? && !e.Commit?
    requires e.Recover? ==> SparesLiveClaims(w, e.at)
    ensures Inv(Apply(w, e))
  {
    var w' := Apply(w, e);
    forall a, b, i | InPhase(w', a, i) && InPhase(w', b, i) ensures a == b {
      assert InPhase(w, a, i) && InPhase(w, b, i);
    }
    forall a, i | InPhase(w', a, i) ensures i in w'.db.jobs && w'.db.jobs[i].status == Running {
      assert InPhase(w, a, i);
    }
  }

  function Run(es: seq<Event>): World {
    if es == [] then World(EMPTY, map[]) else Apply(Run(es[..|es| - 1]), es[|es| - 1])
  }

  /** Any interleaving in which recoveries spare live claims. */
  ghost predicate Valid(es: seq<Event>) {
    es != [] ==>
      var w, e := Run(es[..|es| - 1]), es[|es| - 1];
      && Valid(es[..|es| - 1]) && Enabled(w, e)
      && (e.Recover? ==> SparesLiveClaims(w, e.at))
  }

  /** For any number of workers and any interleaving, no two live workers hold the same job,
      and what a live worker holds is running. */
  lemma {:induction false} ClaimsAreExclusive(es: seq<Event>)
    requires Valid(es)
    ensures Inv(Run(es))
  {
    if es != [] {
      var w, e := Run(es[..|es| - 1]), es[|es| - 1];
      ClaimsAreExclusive(es[..|es| - 1]);
      if e.Update? {
        UpdateKeepsInv(w, e.worker);
      } else if e.Retire? || e.Commit? {
        ReleaseKeepsInv(w, e);
      } else {
        OthersKeepInv(w, e);
      }
    }
  }

  /** The proviso is exact: a recovery keeps the invariant exactly when it spares live claims. */
  lemma RecoveryIsSafeExactly(w: World, at: int)
    requires Inv(w)
    ensures Inv(Apply(w, Recover(at))) <==> SparesLiveClaims(w, at)
  {
    var w' := Apply(w, Recover(at));
    if SparesLiveClaims(w, at) {
      OthersKeepInv(w, Recover(at));
    } else {
      var worker, id :| InPhase(w, worker, id) && id in w.db.jobs && Abandoned(w.db.jobs[id], at);
      assert InPhase(w', worker, id) && w'.db.jobs[id].status == Retry;
    }
  }

  /** And where it hits a live claim that is then the oldest due row, one claim by another
      worker puts the job into two hands. */
  lemma RecoveredLiveClaimIsSharedNext(w: World, owner: nat, other: nat, id: nat, at: int)
    requires Inv(w) && InPhase(w, owner, id) && Abandoned(w.db.jobs[id], at)
    requires other in w.workers && w.workers[other].Idle?
    requires OldestDue(Recovered(w.db, at).jobs, at, id)
    ensures var w1 := Apply(w, Recover(at));
            var w2 := Apply(w1, Read(other, at, id));
            var w3 := Apply(w2, Update(other));
            && Enabled(w1, Read(other, at, id)) && Enabled(w2, Update(other))
            && InPhase(w3, owner, id) && InPhase(w3, other, id) && !Exclusive(w3)
  {
    var w1 := Apply(w, Recover(at));
    var w2 := Apply(w1, Read(other, at, id));
    var w3 := Apply(w2, Update(other));
    assert InPhase(w3, owner, id) && InPhase(w3, other, id);
  }

  // ---------- Updates by a worker that lost its job ----------

  /** A retry by the id of a job keeps the invariant exactly when no live worker holds it. */
  lemma LateRetrySparesClaimsExactly(
      w: World, id: nat, attempts: nat, maxAttempts: nat, error: Failure, delay: nat, now: int)
    requires Inv(w) && id in w.db.jobs
    ensures Inv(w.(db := Retried(w.db, id, attempts, maxAttempts, error, delay, now))) <==>
            forall worker :: !InPhase(w, worker, id)
  {
    var db' := Retried(w.db, id, attempts, maxAttempts, error, delay, now);
    RowLeavesRunning(w, db', id);
  }

  /** So does a commit. */
  lemma LateCommitSparesClaimsExactly(
      w: World, id: nat, verdict: Verdict, model: Model, items: seq<Item>, findingKey: string, now: int, expiresAt: int)
    requires Inv(w) && id in w.db.jobs
    ensures Inv(w.(db := Completed(w.db, id, verdict, model, items, findingKey, now, expiresAt))) <==>
            forall worker :: !InPhase(w, worker, id)
  {
    hide EvidenceAdded, Sighted;
    var db' := Completed(w.db, id, verdict, model, items, findingKey, now, expiresAt);
    RowLeavesRunning(w, db', id);
  }

  lemma RowLeavesRunning(w: World, db': Store, id: nat)
    requires Inv(w) && id in w.db.jobs && id in db'.jobs && db'.nextId >= w.db.nextId
    requires db'.jobs == w.db.jobs[id := db'.jobs[id]] && db'.jobs[id].status != Running
    ensures Inv(w.(db := db')) <==> forall worker :: !InPhase(w, worker, id)
  {
    var w' := w.(db := db');
    assert forall worker, i :: InPhase(w', worker, i) <==> InPhase(w, worker, i);
  }

  /** Two live workers that hold the same job can both commit it: it then has two decisions,
      of which its result names the second. */
  lemma BothHoldersCommit(w: World, id: nat, first: Event, second: Event)
    requires first.Commit? && second.Commit? && first.worker != second.worker && id in w.db.jobs
    requires InPhase(w, first.worker, id) && InPhase(w, second.worker, id)
    ensures Enabled(w, first) && Enabled(Apply(w, first), second)
    ensures TwoDecisions(Apply(Apply(w, first), second).db, id)
  {
    hide EvidenceAdded, Sighted;
    var w1 := Apply(w, first);
    var w2 := Apply(w1, second);
    var d1, d2 := w.db.nextId + |first.items|, w1.db.nextId + |second.items|;
    assert d1 in w2.db.decisions && d2 in w2.db.decisions && d1 != d2;
  }

  ghost predicate TwoDecisions(s: Store, id: nat) {
    exists d1, d2 :: d1 != d2 && d1 in s.decisions && d2 in s.decisions &&
      s.decisions[d1].jobId == id && s.decisions[d2].jobId == id
  }

  /** Any interleaving at all, with recoveries that may hit live claims. */
  ghost predicate Possible(es: seq<Event>) {
    es != [] ==> Possible(es[..|es| - 1]) && Enabled(Run(es[..|es| - 1]), es[|es| - 1])
  }

  lemma OneMore(es: seq<Event>, e: Event)
    requires Possible(es) && Enabled(Run(es), e)
    ensures Possible(es + [e]) && Run(es + [e]) == Apply(Run(es), e)
  {
    assert (es + [e])[..|es|] == es && (es + [e])[|es|] == e;
  }

  /** One job of a table of one, and two workers. */
  ghost predicate Scene(w: World, job: Job, first: Phase, second: Phase) {
    w.db == Store(map[0 := job], map[], map[], map[], 1) && w.workers == map[0 := first, 1 := second]
  }

  lemma FirstWorkerClaims(request: Request, max: nat) returns (es: seq<Event>)
    ensures var row := ClaimedRow(NewJob("k", request, max, 0), 0);
            Possible(es) && Scene(Run(es), row, Holds(0, row), Idle)
  {
    var job := NewJob("k", request, max, 0);
    OneMore([], Submit("k", request, max, 0));
    es := [] + [Submit("k", request, max, 0)];
    OneMore(es, Join(0));
    es := es + [Join(0)];
    OneMore(es, Join(1));
    es := es + [Join(1)];
    assert Scene(Run(es), job, Idle, Idle);
    OneMore(es, Read(0, 0, 0));
    es := es + [Read(0, 0, 0)];
    assert Scene(Run(es), job, HasRead(0, 0), Idle);
    OneMore(es, Update(0));
    es := es + [Update(0)];
  }

  lemma SecondWorkerClaims(es: seq<Event>, row: Job) returns (longer: seq<Event>)
    requires Possible(es) && Scene(Run(es), row, Holds(0, row), Idle)
    requires row.status == Running && row.claimedAt == Some(0)
    ensures var again := ClaimedRow(RecoveredRow(row, 1000), 1000);
            Possible(longer) && Scene(Run(longer), again, Holds(0, row), Holds(0, again))
  {
    var recovered := RecoveredRow(row, 1000);
    OneMore(es, Recover(1000));
    longer := es + [Recover(1000)];
    assert Scene(Run(longer), recovered, Holds(0, row), Idle);
    OneMore(longer, Read(1, 1000, 0));
    longer := longer + [Read(1, 1000, 0)];
    assert Scene(Run(longer), recovered, Holds(0, row), HasRead(0, 1000));
    OneMore(longer, Update(1));
    longer := longer + [Update(1)];
  }

  /** A model call of more than fifteen minutes, and a second worker that starts meanwhile. */
  lemma TwoHolders(request: Request, max: nat) returns (es: seq<Event>)
    ensures var row := ClaimedRow(NewJob("k", request, max, 0), 0);
            var again := ClaimedRow(RecoveredRow(row, 1000), 1000);
            Possible(es) && Scene(Run(es), again, Holds(0, row), Holds(0, again))
  {
    es := FirstWorkerClaims(request, max);
    es := SecondWorkerClaims(es, ClaimedRow(NewJob("k", request, max, 0), 0));
  }

  /** From the empty table: both commit, and one job has two decisions. */
  lemma OneJobCanGetTwoDecisions(request: Request, verdict: Verdict, model: Model) returns (es: seq<Event>)
    ensures Possible(es) && TwoDecisions(Run(es).db, 0)
  {
    es := TwoHolders(request, 5);
    var first := Commit(0, verdict, model, [], "f", 1001, 2000);
    var second := Commit(1, verdict, model, [], "f", 1002, 2000);
    BothHoldersCommit(Run(es), 0, first, second);
    OneMore(es, first);
    OneMore(es + [first], second);
    es := es + [first] + [second];
  }

  /** From the empty table, with two attempts allowed: the second worker uses the last one up and
      the job has failed for good; the first, which had read one attempt, then puts it back to
      work, or commits it. */
  lemma FailedJobCanComeBack(request: Request, verdict: Verdict, model: Model, error: Failure)
    returns (es: seq<Event>)
    ensures var again, commit := Retire(0, error, 1002), Commit(0, verdict, model, [], "f", 1002, 2000);
            && Possible(es) && Possible(es + [again]) && Possible(es + [commit])
            && JobStatus(Run(es), 0, Failed)
            && JobStatus(Run(es + [again]), 0, Retry) && JobStatus(Run(es + [commit]), 0, Succeeded)
  {
    var start := TwoHolders(request, 2);
    OneMore(start, Retire(1, error, 1001));
    es := start + [Retire(1, error, 1001)];
    OneMore(es, Retire(0, error, 1002));
    OneMore(es, Commit(0, verdict, model, [], "f", 1002, 2000));
  }

  ghost predicate JobStatus(w: World, id: nat, status: Status) {
    id in w.db.jobs && w.db.jobs[id].status == status
  }
}
