/** What the attempts of a job and its waits amount to, in every run. */
module Attempts {
  import opened Basics
  import opened Review
  import opened ReviewRuns
  import Json

  // ---------- What one event does to one row ----------

  predicate Holds(w: World, j: nat) {
    w.worker.Holding? && w.worker.id == j
  }

  function NextRow(w: World, e: Event, j: nat): Job
    requires j in w.db.jobs
  {
    var job := w.db.jobs[j];
    match e
    case Claim(at, id) => if id == j then ClaimedRow(job, at) else job
    case Fail(at, error) =>
      if Holds(w, j) then RetriedRow(job, job.attempts, job.maxAttempts, error, JobDelay(job.attempts), at) else job
    case Complete(at, verdict, _, items, key) =>
      if Holds(w, j) then CompletedRow(job, Outcome(verdict, key, w.db.nextId + |items|), at) else job
    case Start(at) => RecoveredRow(job, at)
    case _ => job
  }

  lemma RowAfter(c: Config, w: World, e: Event, j: nat)
    requires RowsOk(c, w) && Enabled(c, w, e) && j in w.db.jobs && j in Apply(c, w, e).db.jobs
    ensures Apply(c, w, e).db.jobs[j] == NextRow(w, e, j)
    ensures RowConsistent(c, w.db.jobs[j], w.clock) && w.clock <= e.at
    ensures e.Claim? && e.id == j ==> Claimable(w.db.jobs[j])
    ensures Holds(w, j) ==> w.db.jobs[j].status == Running
  {
    hide KeysUnique, EvidenceAdded, Sighted;
  }

  lemma NewRowsAreFresh(c: Config, w: World, e: Event, j: nat)
    requires RowsOk(c, w) && Enabled(c, w, e) && j !in w.db.jobs && j in Apply(c, w, e).db.jobs
    ensures e.Submit? && j == w.db.nextId && Apply(c, w, e).db.jobs[j] == NewJob(e.key, e.request, c.maxAttempts, e.at)
  {
    hide KeysUnique, EvidenceAdded, Sighted;
  }

  // ---------- Attempts ----------

  /** Failed rounds of a job. */
  ghost function Retries(c: Config, es: seq<Event>, j: nat): nat {
    if es == [] then 0
    else Retries(c, Front(es), j) + if Last(es).Fail? && Holds(Run(c, Front(es)), j) then 1 else 0
  }

  predicate Recovers(w: World, e: Event, j: nat) {
    e.Start? && j in w.db.jobs && Abandoned(w.db.jobs[j], e.at)
  }

  /** Recoveries of a job. */
  ghost function Recoveries(c: Config, es: seq<Event>, j: nat): nat {
    if es == [] then 0
    else Recoveries(c, Front(es), j) + if Recovers(Run(c, Front(es)), Last(es), j) then 1 else 0
  }

  /** A recovery of a job that has no attempt left. */
  predicate Overdraws(w: World, e: Event, j: nat) {
    Recovers(w, e, j) && w.db.jobs[j].attempts >= w.db.jobs[j].maxAttempts
  }

  ghost function Overdrafts(c: Config, es: seq<Event>, j: nat): nat {
    if es == [] then 0
    else Overdrafts(c, Front(es), j) + if Overdraws(Run(c, Front(es)), Last(es), j) then 1 else 0
  }

  lemma {:induction false} NoHistoryBeforeIssue(c: Config, es: seq<Event>, j: nat)
    requires Valid(c, es) && j >= Run(c, es).db.nextId
    ensures Retries(c, es, j) == 0 && Recoveries(c, es, j) == 0 && Overdrafts(c, es, j) == 0
  {
    if es != [] {
      RunsKeepInv(c, Front(es));
      NoHistoryBeforeIssue(c, Front(es), j);
    }
  }

  predicate Frugal(job: Job, maxAttempts: nat) {
    job.attempts <= maxAttempts && (Claimable(job) ==> job.attempts < maxAttempts)
  }

  /** Attempts against history: every claim is answered by a retry, a recovery, or the present
      state. A row never recovered without an attempt left is within its budget; any other is
      over it by the number of those recoveries, one less while it waits for the last claim. */
  ghost predicate AttemptsBalance(c: Config, job: Job, retries: nat, recoveries: nat, overdrafts: nat) {
    && job.attempts == retries + recoveries + (if job.status == Running || job.status == Succeeded then 1 else 0)
    && overdrafts <= recoveries
    && (overdrafts == 0 ==> Frugal(job, c.maxAttempts))
    && (overdrafts > 0 ==> job.attempts == c.maxAttempts + overdrafts - (if Claimable(job) then 1 else 0))
    && (job.status == Failed ==> job.attempts >= c.maxAttempts)
  }

  lemma BalanceStep(c: Config, w: World, e: Event, j: nat, retries: nat, recoveries: nat, overdrafts: nat)
    requires RowsOk(c, w) && Enabled(c, w, e) && j in w.db.jobs && j in Apply(c, w, e).db.jobs
    requires AttemptsBalance(c, w.db.jobs[j], retries, recoveries, overdrafts)
    ensures AttemptsBalance(c, Apply(c, w, e).db.jobs[j],
              retries + (if e.Fail? && Holds(w, j) then 1 else 0),
              recoveries + (if Recovers(w, e, j) then 1 else 0),
              overdrafts + (if Overdraws(w, e, j) then 1 else 0))
  {
    hide RowsOk, Apply, Enabled;
    RowAfter(c, w, e, j);
  }

  /** In every run, a job's attempts are its retries plus its recoveries, plus one while it is
      running or once it succeeded; and they stand to the budget as the balance says. */
  lemma {:induction false} AttemptsAreAccountedFor(c: Config, es: seq<Event>, j: nat)
    requires c.maxAttempts >= 1 && Valid(c, es) && j in Run(c, es).db.jobs
    ensures AttemptsBalance(c, Run(c, es).db.jobs[j], Retries(c, es, j), Recoveries(c, es, j), Overdrafts(c, es, j))
    ensures Run(c, es).db.jobs[j].attempts <= c.maxAttempts + Recoveries(c, es, j)
  {
    var w, e := Run(c, Front(es)), Last(es);
    RunsKeepInv(c, Front(es));
    if j in w.db.jobs {
      AttemptsAreAccountedFor(c, Front(es), j);
      BalanceStep(c, w, e, j, Retries(c, Front(es), j), Recoveries(c, Front(es), j), Overdrafts(c, Front(es), j));
    } else {
      NewRowsAreFresh(c, w, e, j);
      NoHistoryBeforeIssue(c, Front(es), j);
    }
  }

  // ---------- When the budget is kept ----------

  /** A job has more attempts than its maximum exactly when it was recovered without an attempt
      left and claimed again after that. */
  lemma BudgetIsExceededExactly(c: Config, es: seq<Event>, j: nat)
    requires c.maxAttempts >= 1 && Valid(c, es) && j in Run(c, es).db.jobs
    ensures var job, n := Run(c, es).db.jobs[j], Overdrafts(c, es, j);
            job.attempts > job.maxAttempts <==> n >= 2 || (n == 1 && !Claimable(job))
  {
    AttemptsAreAccountedFor(c, es, j);
    RunsKeepInv(c, es);
    assert RowConsistent(c, Run(c, es).db.jobs[j], Run(c, es).clock);
  }

  /** Every row is within its budget, and every waiting row below it. */
  ghost predicate WithinBudget(s: Store) {
    forall j :: j in s.jobs ==> Frugal(s.jobs[j], s.jobs[j].maxAttempts)
  }

  /** A restart that finds an abandoned row without an attempt left. */
  ghost predicate OverdrawingStart(w: World, e: Event) {
    exists j :: Overdraws(w, e, j)
  }

  /** One step keeps the budget exactly when it is no such restart. */
  lemma BudgetStep(c: Config, w: World, e: Event)
    requires c.maxAttempts >= 1 && RowsOk(c, w) && Enabled(c, w, e) && WithinBudget(w.db)
    ensures WithinBudget(Apply(c, w, e).db) <==> !OverdrawingStart(w, e)
  {
    hide RowsOk, Enabled;
    var s' := Apply(c, w, e).db;
    forall j | j in s'.jobs
      ensures Frugal(s'.jobs[j], s'.jobs[j].maxAttempts) <==> !Overdraws(w, e, j)
    {
      FrugalStep(c, w, e, j);
    }
    if j :| Overdraws(w, e, j) {
      assert j in s'.jobs;
    }
  }

  lemma FrugalStep(c: Config, w: World, e: Event, j: nat)
    requires c.maxAttempts >= 1 && RowsOk(c, w) && Enabled(c, w, e) && WithinBudget(w.db)
    requires j in Apply(c, w, e).db.jobs
    ensures var job' := Apply(c, w, e).db.jobs[j]; Frugal(job', job'.maxAttempts) <==> !Overdraws(w, e, j)
  {
    hide RowsOk, Enabled, Apply;
    if j in w.db.jobs {
      RowAfter(c, w, e, j);
      assert Frugal(w.db.jobs[j], w.db.jobs[j].maxAttempts);
    } else {
      NewRowsAreFresh(c, w, e, j);
    }
  }

  /** After every event of a run. */
  ghost predicate AlwaysWithinBudget(c: Config, es: seq<Event>) {
    WithinBudget(Run(c, es).db) && (es != [] ==> AlwaysWithinBudget(c, Front(es)))
  }

  ghost predicate NeverOverdraws(c: Config, es: seq<Event>) {
    es != [] ==> NeverOverdraws(c, Front(es)) && !OverdrawingStart(Run(c, Front(es)), Last(es))
  }

  /** A run keeps the strict budget throughout exactly when no restart in it finds an abandoned
      row without an attempt left. */
  lemma {:induction false} BudgetHoldsExactly(c: Config, es: seq<Event>)
    requires c.maxAttempts >= 1 && Valid(c, es)
    ensures AlwaysWithinBudget(c, es) <==> NeverOverdraws(c, es)
  {
    if es != [] {
      BudgetHoldsExactly(c, Front(es));
      RunsKeepInv(c, Front(es));
      if AlwaysWithinBudget(c, Front(es)) {
        BudgetStep(c, Run(c, Front(es)), Last(es));
      }
    }
  }

  /** No row has more attempts than its maximum. */
  ghost predicate WithinMaximum(s: Store) {
    forall j :: j in s.jobs ==> s.jobs[j].attempts <= s.jobs[j].maxAttempts
  }

  /** A claim of a row that has no attempt left. */
  predicate SpentClaim(w: World, e: Event) {
    e.Claim? && e.id in w.db.jobs && w.db.jobs[e.id].attempts >= w.db.jobs[e.id].maxAttempts
  }

  lemma MaximumStep(c: Config, w: World, e: Event)
    requires RowsOk(c, w) && Enabled(c, w, e) && WithinMaximum(w.db)
    ensures WithinMaximum(Apply(c, w, e).db) <==> !SpentClaim(w, e)
  {
    hide RowsOk;
    var s' := Apply(c, w, e).db;
    forall j | j in s'.jobs
      ensures s'.jobs[j].attempts <= s'.jobs[j].maxAttempts <==> !(SpentClaim(w, e) && e.id == j)
    {
      MaximumRow(c, w, e, j);
    }
    assert SpentClaim(w, e) ==> e.id in s'.jobs;
  }

  lemma MaximumRow(c: Config, w: World, e: Event, j: nat)
    requires RowsOk(c, w) && Enabled(c, w, e) && WithinMaximum(w.db) && j in Apply(c, w, e).db.jobs
    ensures var job' := Apply(c, w, e).db.jobs[j];
            job'.attempts <= job'.maxAttempts <==> !(SpentClaim(w, e) && e.id == j)
  {
    hide RowsOk, Enabled, Apply;
    if j in w.db.jobs {
      RowAfter(c, w, e, j);
    } else {
      NewRowsAreFresh(c, w, e, j);
    }
  }

  ghost predicate AlwaysWithinMaximum(c: Config, es: seq<Event>) {
    WithinMaximum(Run(c, es).db) && (es != [] ==> AlwaysWithinMaximum(c, Front(es)))
  }

  ghost predicate NeverClaimsSpent(c: Config, es: seq<Event>) {
    es != [] ==> NeverClaimsSpent(c, Front(es)) && !SpentClaim(Run(c, Front(es)), Last(es))
  }

  /** No job of a run ever has more attempts than its maximum exactly when no claim of the run
      takes a row without an attempt left. */
  lemma {:induction false} MaximumHoldsExactly(c: Config, es: seq<Event>)
    requires Valid(c, es)
    ensures AlwaysWithinMaximum(c, es) <==> NeverClaimsSpent(c, es)
  {
    if es != [] {
      MaximumHoldsExactly(c, Front(es));
      RunsKeepInv(c, Front(es));
      if AlwaysWithinMaximum(c, Front(es)) {
        MaximumStep(c, Run(c, Front(es)), Last(es));
      }
    }
  }

  /** Without a restart that overdraws, no claim takes such a row. */
  lemma {:induction false} FrugalRunsClaimNothingSpent(c: Config, es: seq<Event>)
    requires c.maxAttempts >= 1 && Valid(c, es) && NeverOverdraws(c, es)
    ensures NeverClaimsSpent(c, es)
  {
    if es != [] {
      FrugalRunsClaimNothingSpent(c, Front(es));
      BudgetHoldsExactly(c, Front(es));
      var w, e := Run(c, Front(es)), Last(es);
      assert e.Claim? ==> Frugal(w.db.jobs[e.id], w.db.jobs[e.id].maxAttempts);
    }
  }

  // ---------- The back-off schedule of jobs ----------

  /** The cap of fifteen minutes never binds, delays never decrease, and stay within 512 s. */
  lemma JobDelaysNeverDecrease(k: nat)
    ensures JobDelay(k) == Pow2(Min(k, 9)) <= JobDelay(k + 1) <= 512
  {
    Pow2Monotone(Min(k, 9), Min(k + 1, 9));
    Pow2Monotone(Min(k, 9), 9);
    Pow2Monotone(Min(k + 1, 9), 9);
    PowersOfTwo();
  }

  function JobWaits(k: nat): nat {
    if k == 0 then 0 else JobWaits(k - 1) + JobDelay(k)
  }

  lemma {:induction false} JobWaitsAreGeometric(k: nat)
    requires k <= 9
    ensures JobWaits(k) == Pow2(k + 1) - 2
  {
    if k > 0 {
      JobWaitsAreGeometric(k - 1);
      JobDelaysNeverDecrease(k);
    }
  }

  lemma JobDelayIsMonotone(j: nat, k: nat)
    requires j <= k
    ensures JobDelay(j) <= JobDelay(k)
  {
    Pow2Monotone(Min(j, 9), Min(k, 9));
  }

  /** In every run a job is not due before its creation plus the waits of all its retries plus
      the time after which a claim counts as abandoned for each of its recoveries. */
  lemma {:induction false} RetriesSitOutTheirWaits(c: Config, es: seq<Event>, j: nat)
    requires c.maxAttempts >= 1 && Valid(c, es) && j in Run(c, es).db.jobs
    ensures WaitsBalance(Run(c, es).db.jobs[j], Retries(c, es, j), Recoveries(c, es, j))
  {
    hide Decided, RowsOk, Apply, Enabled, WaitsBalance, NextRow, Frugal, NewJob;
    var w, e := Run(c, Front(es)), Last(es);
    RunsKeepInv(c, Front(es));
    if j in w.db.jobs {
      RetriesSitOutTheirWaits(c, Front(es), j);
      AttemptsAreAccountedFor(c, Front(es), j);
      WaitStep(c, w, e, j, Retries(c, Front(es), j), Recoveries(c, Front(es), j));
    } else {
      NewRowsAreFresh(c, w, e, j);
      NoHistoryBeforeIssue(c, Front(es), j);
      FirstWait(e, c.maxAttempts);
    }
  }

  lemma FirstWait(e: Event, maxAttempts: nat)
    requires e.Submit?
    ensures WaitsBalance(NewJob(e.key, e.request, maxAttempts, e.at), 0, 0)
  {
  }

  ghost predicate WaitsBalance(job: Job, retries: nat, recoveries: nat) {
    job.availableAt >= job.createdAt + JobWaits(retries) + 901 * recoveries
  }

  lemma WaitStep(c: Config, w: World, e: Event, j: nat, retries: nat, recoveries: nat)
    requires RowsOk(c, w) && Enabled(c, w, e) && j in w.db.jobs && j in Apply(c, w, e).db.jobs
    requires WaitsBalance(w.db.jobs[j], retries, recoveries)
    requires w.db.jobs[j].status == Running ==> w.db.jobs[j].attempts == retries + recoveries + 1
    ensures WaitsBalance(Apply(c, w, e).db.jobs[j],
              retries + (if e.Fail? && Holds(w, j) then 1 else 0),
              recoveries + (if Recovers(w, e, j) then 1 else 0))
  {
    hide RowsOk, Enabled, Apply;
    RowAfter(c, w, e, j);
    JobDelayIsMonotone(retries + 1, retries + recoveries + 1);
  }

  /** The waits of jobs, in seconds. */
  lemma JobDelayTable(k: nat)
    ensures JobDelay(k) == [1, 2, 4, 8, 16, 32, 64, 128, 256, 512][Min(k, 9)]
  {
    JobDelaysNeverDecrease(k);
    PowerTable(Min(k, 9));
  }

  /** The row was last put back by a restart, not by a failed round. */
  ghost predicate PutBackByRestart(c: Config, es: seq<Event>, j: nat) {
    && es != []
    && var w := Run(c, Front(es));
       (Recovers(w, Last(es), j) || (PutBackByRestart(c, Front(es), j) && !(Last(es).Fail? && Holds(w, j))))
  }

  ghost predicate Rescheduled(job: Job, byRestart: bool) {
    && (job.status == Pending ==> job.attempts == 0 && job.availableAt == job.createdAt)
    && (job.status == Retry ==>
          job.availableAt == job.updatedAt + if byRestart then 0 else
            [1, 2, 4, 8, 16, 32, 64, 128, 256, 512][Min(job.attempts, 9)])
  }

  lemma RescheduledStep(c: Config, w: World, e: Event, j: nat, byRestart: bool)
    requires RowsOk(c, w) && Enabled(c, w, e) && j in w.db.jobs && j in Apply(c, w, e).db.jobs
    requires Rescheduled(w.db.jobs[j], byRestart)
    ensures Rescheduled(Apply(c, w, e).db.jobs[j],
              Recovers(w, e, j) || (byRestart && !(e.Fail? && Holds(w, j))))
  {
    hide RowsOk, Enabled, Apply, JobDelay;
    RowAfter(c, w, e, j);
    JobDelayTable(w.db.jobs[j].attempts);
  }

  /** In every run, a job that waits again is due exactly when the doubling delay of its attempts
      is over, or at once when a restart put it back; a pending one is due from its creation on. */
  lemma {:induction false} WaitsAreDoubling(c: Config, es: seq<Event>, j: nat)
    requires Valid(c, es) && j in Run(c, es).db.jobs
    ensures Rescheduled(Run(c, es).db.jobs[j], PutBackByRestart(c, es, j))
  {
    hide Decided, RowsOk, Apply, Enabled, Rescheduled;
    var w, e := Run(c, Front(es)), Last(es);
    RunsKeepInv(c, Front(es));
    if j in w.db.jobs {
      WaitsAreDoubling(c, Front(es), j);
      RescheduledStep(c, w, e, j, PutBackByRestart(c, Front(es), j));
    } else {
      NewRowsAreFresh(c, w, e, j);
      NewIsScheduled(e, c.maxAttempts, PutBackByRestart(c, es, j));
    }
  }

  lemma NewIsScheduled(e: Event, maxAttempts: nat, byRestart: bool)
    requires e.Submit?
    ensures Rescheduled(NewJob(e.key, e.request, maxAttempts, e.at), byRestart)
  {
  }

  // ---------- The budget is not a bound ----------

  ghost function OneJobWorld(job: Job, worker: Worker, clock: int): World {
    World(Store(map[0 := job], map[], map[], map[], 1), worker, clock)
  }

  /** The budget alone is no bound: a crash and a recovery give a job of one allowed attempt a
      second one. */
  lemma AttemptsCanExceedMaximum()
    ensures exists c: Config, es: seq<Event> ::
              c.maxAttempts == 1 && Valid(c, es) && 0 in Run(c, es).db.jobs && Run(c, es).db.jobs[0].attempts == 2
  {
    var c := Config(1, 1, 0, 0);
    var request := Request("latest", Json.Json.Null, "api", Json.Json.Null, 1);
    var es := FirstClaim(c, request);
    SecondClaim(c, request, es);
  }

  lemma FirstClaim(c: Config, request: Request) returns (es: seq<Event>)
    requires c == Config(1, 1, 0, 0) && request.rowLimit == 1
    ensures var claimed := ClaimedRow(NewJob("k", request, 1, 0), 0);
            Valid(c, es) && Run(c, es) == OneJobWorld(claimed, Holding(0, claimed), 0)
  {
    var job := NewJob("k", request, 1, 0);
    OneMore(c, [], Submit(0, "k", request));
    es := [] + [Submit(0, "k", request)];
    assert Run(c, es) == OneJobWorld(job, Down, 0);
    OneMore(c, es, Start(0));
    es := es + [Start(0)];
    assert Run(c, es) == OneJobWorld(job, Idle, 0);
    OneMore(c, es, Claim(0, 0));
    es := es + [Claim(0, 0)];
  }

  lemma SecondClaim(c: Config, request: Request, es: seq<Event>)
    requires c == Config(1, 1, 0, 0)
    requires var claimed := ClaimedRow(NewJob("k", request, 1, 0), 0);
             Valid(c, es) && Run(c, es) == OneJobWorld(claimed, Holding(0, claimed), 0)
    ensures exists longer: seq<Event> ::
              Valid(c, longer) && 0 in Run(c, longer).db.jobs && Run(c, longer).db.jobs[0].attempts == 2
  {
    var claimed := ClaimedRow(NewJob("k", request, 1, 0), 0);
    var recovered := RecoveredRow(claimed, 1000);
    OneMore(c, es, Crash(0));
    OneMore(c, es + [Crash(0)], Start(1000));
    var restarted := es + [Crash(0)] + [Start(1000)];
    assert Run(c, restarted).db.jobs == map[0 := recovered];
    OneMore(c, restarted, Claim(1000, 0));
    assert Run(c, restarted + [Claim(1000, 0)]).db.jobs[0].attempts == 2;
  }
}
