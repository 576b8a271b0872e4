/** The review queue drains. */
module ReviewDrain {
  import opened Basics
  import opened Evidence
  import opened Review
  import opened ReviewRuns
  import opened Attempts

  // ---------- The queue drains ----------

  /** What a job may still cost: one claim per attempt left, and at least one while it waits. */
  ghost function JobWeight(job: Job): nat {
    if Claimable(job) then Max(1, job.maxAttempts - job.attempts)
    else if job.status == Running then Max(0, job.maxAttempts - job.attempts)
    else 0
  }

  ghost function Weights(jobs: map<nat, Job>): map<nat, nat> {
    map id | id in jobs :: JobWeight(jobs[id])
  }

  ghost function Work(s: Store): nat {
    Sum(Weights(s.jobs), s.nextId)
  }

  ghost function Claims(es: seq<Event>): nat {
    if es == [] then 0 else Claims(Front(es)) + if Last(es).Claim? then 1 else 0
  }

  ghost function Purges(es: seq<Event>): nat {
    if es == [] then 0 else Purges(Front(es)) + if Last(es).Purge? then 1 else 0
  }

  lemma CountsOneMore(es: seq<Event>, e: Event)
    ensures Claims(es + [e]) == Claims(es) + (if e.Claim? then 1 else 0)
    ensures Purges(es + [e]) == Purges(es) + (if e.Purge? then 1 else 0)
  {
    assert Front(es + [e]) == es && Last(es + [e]) == e;
  }

  ghost function AbandonedRows(jobs: map<nat, Job>, now: int): set<nat> {
    set id | id in jobs && Abandoned(jobs[id], now)
  }

  lemma SubmitWork(c: Config, w: World, e: Event)
    requires c.maxAttempts >= 1 && Inv(c, w) && Enabled(c, w, e) && e.Submit?
    ensures Work(Apply(c, w, e).db) == Work(w.db) + c.maxAttempts
  {
    var a, b := Weights(w.db.jobs), Weights(Apply(c, w, e).db.jobs);
    var n := w.db.nextId;
    forall i: nat | i < n ensures Weight(a, i) == Weight(b, i) {
    }
    SumIsMonotone(a, b, n);
    SumIsMonotone(b, a, n);
    assert Weight(b, n) == c.maxAttempts;
  }

  lemma ClaimWork(c: Config, w: World, e: Event)
    requires Inv(c, w) && Enabled(c, w, e) && e.Claim?
    ensures Work(Apply(c, w, e).db) + 1 == Work(w.db)
  {
    SumAfterOneChange(Weights(w.db.jobs), Weights(Apply(c, w, e).db.jobs), w.db.nextId, e.id);
  }

  lemma StartWork(c: Config, w: World, e: Event)
    requires Inv(c, w) && Enabled(c, w, e) && e.Start?
    ensures Work(Apply(c, w, e).db) <= Work(w.db) + |AbandonedRows(w.db.jobs, e.at)|
  {
    SumGrowsAtMost(Weights(w.db.jobs), Weights(Apply(c, w, e).db.jobs), w.db.nextId, AbandonedRows(w.db.jobs, e.at));
  }

  lemma FailWork(c: Config, w: World, e: Event)
    requires Inv(c, w) && Enabled(c, w, e) && e.Fail?
    ensures Work(Apply(c, w, e).db) <= Work(w.db)
  {
    SumIsMonotone(Weights(Apply(c, w, e).db.jobs), Weights(w.db.jobs), w.db.nextId);
  }

  lemma CompleteWork(c: Config, w: World, e: Event)
    requires Inv(c, w) && Enabled(c, w, e) && e.Complete?
    ensures Work(Apply(c, w, e).db) <= Work(w.db)
  {
    hide EvidenceAdded, Sighted, Decided, RowConsistent, KeysUnique;
    var a, b := Weights(w.db.jobs), Weights(Apply(c, w, e).db.jobs);
    SumIsMonotone(b, a, w.db.nextId);
    NoWeightBeyond(b, w.db.nextId, Apply(c, w, e).db.nextId);
  }

  lemma {:induction false} NoWeightBeyond(w: map<nat, nat>, n: nat, m: nat)
    requires n <= m && forall i :: i in w ==> i < n
    ensures Sum(w, m) == Sum(w, n)
  {
    if n < m {
      NoWeightBeyond(w, n, m - 1);
    }
  }

  lemma PurgeWork(c: Config, w: World, e: Event)
    requires Inv(c, w) && Enabled(c, w, e) && e.Purge?
    ensures Work(Apply(c, w, e).db) <= Work(w.db)
  {
    SumIsMonotone(Weights(Apply(c, w, e).db.jobs), Weights(w.db.jobs), w.db.nextId);
  }

  /** What one event may add to the work: a budget per submission, a claim per recovered row. */
  ghost function Grant(c: Config, w: World, e: Event): nat {
    if e.Submit? then c.maxAttempts
    else if e.Start? then |AbandonedRows(w.db.jobs, e.at)|
    else 0
  }

  ghost function Grants(c: Config, es: seq<Event>): nat {
    if es == [] then 0 else Grants(c, Front(es)) + Grant(c, Run(c, Front(es)), Last(es))
  }

  lemma StepIsPaidFor(c: Config, w: World, e: Event)
    requires c.maxAttempts >= 1 && Inv(c, w) && Enabled(c, w, e)
    ensures Work(Apply(c, w, e).db) + (if e.Claim? then 1 else 0) <= Work(w.db) + Grant(c, w, e)
  {
    match e
    case Submit(_, _, _) => SubmitWork(c, w, e);
    case Claim(_, _) => ClaimWork(c, w, e);
    case Start(_) => StartWork(c, w, e);
    case Fail(_, _) => FailWork(c, w, e);
    case Complete(_, _, _, _, _) => CompleteWork(c, w, e);
    case Purge(_, _) => PurgeWork(c, w, e);
    case Crash(_) =>
  }

  /** Claims are paid for: from any point of a run on, the claims made and the work left are
      covered by the work there was, a full budget per submission, and one claim per recovery. */
  lemma {:induction false} ClaimsArePaidFor(c: Config, es: seq<Event>, more: seq<Event>)
    requires c.maxAttempts >= 1 && Valid(c, es + more)
    ensures Valid(c, es)
    ensures Claims(es + more) - Claims(es) + Work(Run(c, es + more).db) <=
            Work(Run(c, es).db) + Grants(c, es + more) - Grants(c, es)
    decreases |more|
  {
    if more == [] {
      assert es + more == es;
    } else {
      var all := es + more;
      assert Front(all) == es + Front(more) && Last(all) == Last(more);
      ClaimsArePaidFor(c, es, Front(more));
      RunsKeepInv(c, Front(all));
      StepIsPaidFor(c, Run(c, Front(all)), Last(all));
    }
  }

  lemma {:induction false} NoWorkNoWaitingRow(jobs: map<nat, Job>, n: nat)
    requires Sum(Weights(jobs), n) == 0
    ensures forall id :: id in jobs && id < n ==> !Claimable(jobs[id])
  {
    if n > 0 {
      NoWorkNoWaitingRow(jobs, n - 1);
      assert Weight(Weights(jobs), n - 1) == 0;
    }
  }

  lemma {:induction false} QuietEventsGrantNothing(c: Config, es: seq<Event>, more: seq<Event>)
    requires forall e :: e in more ==> !e.Submit? && !e.Start?
    ensures Grants(c, es + more) == Grants(c, es)
    decreases |more|
  {
    if more == [] {
      assert es + more == es;
    } else {
      assert Front(es + more) == es + Front(more) && Last(es + more) == Last(more) && Last(more) in more;
      QuietEventsGrantNothing(c, es, Front(more));
    }
  }

  /** Without submissions and restarts, a run holds at most as many claims as there was work,
      and when it has used them all no row is waiting. */
  lemma QuietClaimsAreBounded(c: Config, es: seq<Event>, more: seq<Event>)
    requires c.maxAttempts >= 1 && Valid(c, es + more)
    requires forall e :: e in more ==> !e.Submit? && !e.Start?
    ensures Claims(es + more) - Claims(es) <= Work(Run(c, es).db)
    ensures Claims(es + more) - Claims(es) == Work(Run(c, es).db) ==>
              forall id :: id in Run(c, es + more).db.jobs ==> !Claimable(Run(c, es + more).db.jobs[id])
  {
    ClaimsArePaidFor(c, es, more);
    QuietEventsGrantNothing(c, es, more);
    RunsKeepInv(c, es + more);
    var s := Run(c, es + more).db;
    if Work(s) == 0 {
      NoWorkNoWaitingRow(s.jobs, s.nextId);
      assert forall id :: id in s.jobs ==> id < s.nextId;
    }
  }

  // ---------- Rounds of an idle worker ----------

  const LONGEST_WAIT := 512

  /** The last time at which some row was given a time to wait for. */
  ghost function Scheduled(c: Config, es: seq<Event>): int {
    if es == [] then c.epoch
    else if Last(es).Submit? || Last(es).Start? || Last(es).Fail? then Last(es).at
    else Scheduled(c, Front(es))
  }

  /** No row ever waits longer than 512 seconds from the last scheduling on. */
  lemma {:induction false} WaitsAreShort(c: Config, es: seq<Event>)
    requires Valid(c, es)
    ensures Scheduled(c, es) <= Run(c, es).clock
    ensures forall id :: id in Run(c, es).db.jobs ==>
              Run(c, es).db.jobs[id].availableAt <= Scheduled(c, es) + LONGEST_WAIT
  {
    if es != [] {
      WaitsAreShort(c, Front(es));
      RunsKeepInv(c, Front(es));
      var w, e := Run(c, Front(es)), Last(es);
      forall id | id in Run(c, es).db.jobs
        ensures Run(c, es).db.jobs[id].availableAt <= Scheduled(c, es) + LONGEST_WAIT
      {
        WaitStaysShort(c, w, e, id, Scheduled(c, Front(es)));
      }
    }
  }

  lemma WaitStaysShort(c: Config, w: World, e: Event, id: nat, scheduled: int)
    requires RowsOk(c, w) && Enabled(c, w, e) && id in Apply(c, w, e).db.jobs && scheduled <= w.clock
    requires id in w.db.jobs ==> w.db.jobs[id].availableAt <= scheduled + LONGEST_WAIT
    ensures Apply(c, w, e).db.jobs[id].availableAt <=
            (if e.Submit? || e.Start? || e.Fail? then e.at else scheduled) + LONGEST_WAIT
  {
    hide RowsOk, Enabled, Apply;
    if id in w.db.jobs {
      RowAfter(c, w, e, id);
      JobDelaysNeverDecrease(w.db.jobs[id].attempts);
    } else {
      NewRowsAreFresh(c, w, e, id);
    }
  }

  /** What an idle worker does by itself: a round, with no events where no row is due, or a purge. */
  datatype Move = Round(at: int, events: seq<Event>) | Retention(at: int, cutoff: int)

  function EventsOf(m: Move): seq<Event> {
    match m
    case Round(_, events) => events
    case Retention(at, cutoff) => [Purge(at, cutoff)]
  }

  ghost predicate SomeDue(jobs: map<nat, Job>, now: int) {
    exists id :: id in jobs && Due(jobs[id], now)
  }

  /** A round claims an oldest due row, where one is due, and then commits it or fails. */
  ghost predicate IsMove(c: Config, es: seq<Event>, m: Move) {
    match m
    case Round(at, events) =>
      && Run(c, es).clock <= at
      && if SomeDue(Run(c, es).db.jobs, at) then
           && |events| == 2 && events[0].Claim? && events[0].at == at && (events[1].Complete? || events[1].Fail?)
           && Valid(c, es + [events[0]]) && Valid(c, es + [events[0]] + [events[1]])
         else events == []
    case Retention(at, cutoff) => Valid(c, es + [Purge(at, cutoff)])
  }

  function Play(es: seq<Event>, moves: seq<Move>): seq<Event> {
    if moves == [] then es else Play(es, moves[..|moves| - 1]) + EventsOf(moves[|moves| - 1])
  }

  ghost predicate Plays(c: Config, es: seq<Event>, moves: seq<Move>) {
    moves != [] ==>
      var front := moves[..|moves| - 1];
      Plays(c, es, front) && IsMove(c, Play(es, front), moves[|moves| - 1])
  }

  /** A round counts when it found a row, or could have found any waiting row: it came when the
      longest wait was over. */
  ghost predicate Counts(c: Config, es: seq<Event>, m: Move) {
    m.Round? && (m.events != [] || m.at >= Scheduled(c, es) + LONGEST_WAIT)
  }

  ghost function Rounds(c: Config, es: seq<Event>, moves: seq<Move>): nat {
    if moves == [] then 0
    else
      var front := moves[..|moves| - 1];
      Rounds(c, es, front) + if Counts(c, Play(es, front), moves[|moves| - 1]) then 1 else 0
  }

  ghost predicate NoneWaiting(s: Store) {
    forall id :: id in s.jobs ==> !Claimable(s.jobs[id])
  }

  /** The running rows are the same. */
  ghost predicate SameRunning(s: Store, s': Store) {
    forall id :: IsRunning(s, id) || IsRunning(s', id) ==>
      id in s.jobs && id in s'.jobs && s.jobs[id] == s'.jobs[id]
  }

  ghost predicate IsRunning(s: Store, id: nat) {
    id in s.jobs && s.jobs[id].status == Running
  }

  lemma RoundStep(c: Config, w: World, claim: Event, answer: Event)
    requires c.maxAttempts >= 1 && Inv(c, w) && Enabled(c, w, claim) && claim.Claim?
    requires Enabled(c, Apply(c, w, claim), answer) && (answer.Complete? || answer.Fail?)
    ensures var w' := Apply(c, Apply(c, w, claim), answer);
            w'.worker.Idle? && Work(w'.db) + 1 <= Work(w.db) && SameRunning(w.db, w'.db)
  {
    var mid := Apply(c, w, claim);
    InvStep(c, w, claim);
    StepIsPaidFor(c, w, claim);
    StepIsPaidFor(c, mid, answer);
    RoundKeepsRunning(c, w, claim, answer);
  }

  lemma RoundKeepsRunning(c: Config, w: World, claim: Event, answer: Event)
    requires RowsOk(c, w) && Enabled(c, w, claim) && claim.Claim?
    requires Enabled(c, Apply(c, w, claim), answer) && (answer.Complete? || answer.Fail?)
    ensures SameRunning(w.db, Apply(c, Apply(c, w, claim), answer).db)
  {
    hide EvidenceAdded, Sighted, KeysUnique, IdsIssued, RowConsistent;
    var s, s' := w.db, Apply(c, Apply(c, w, claim), answer).db;
    assert s'.jobs == s.jobs[claim.id := s'.jobs[claim.id]];
    assert !IsRunning(s, claim.id) && !IsRunning(s', claim.id);
  }

  lemma PurgeStep(c: Config, w: World, e: Event)
    requires c.maxAttempts >= 1 && Inv(c, w) && Enabled(c, w, e) && e.Purge?
    ensures var w' := Apply(c, w, e);
            && w'.worker.Idle? && Work(w'.db) <= Work(w.db) && SameRunning(w.db, w'.db)
            && (NoneWaiting(w.db) ==> NoneWaiting(w'.db))
  {
    PurgeWork(c, w, e);
  }

  /** What a move of an idle worker comes to: nothing runs that did not, and a counted round has
      cost work or found that nothing waits. */
  ghost predicate Moved(w: World, w': World, counted: bool) {
    && w'.worker.Idle? && SameRunning(w.db, w'.db)
    && (NoneWaiting(w.db) ==> NoneWaiting(w'.db))
    && (Work(w'.db) + (if counted then 1 else 0) <= Work(w.db) || NoneWaiting(w'.db))
  }

  lemma EmptyRoundStep(c: Config, es: seq<Event>, m: Move)
    requires Valid(c, es) && Run(c, es).worker.Idle? && IsMove(c, es, m) && m.Round? && m.events == []
    ensures Moved(Run(c, es), Run(c, es), Counts(c, es, m))
  {
    hide Run, Valid, Work;
    WaitsAreShort(c, es);
  }

  lemma FullRoundStep(c: Config, es: seq<Event>, m: Move)
    requires c.maxAttempts >= 1 && Valid(c, es) && IsMove(c, es, m) && m.Round? && m.events != []
    ensures Valid(c, es + m.events) && Moved(Run(c, es), Run(c, es + m.events), true)
  {
    hide Work, Apply, Enabled;
    RunsKeepInv(c, es);
    var claim, answer := m.events[0], m.events[1];
    assert Front(es + [claim]) == es && Last(es + [claim]) == claim;
    assert Front(es + [claim] + [answer]) == es + [claim] && Last(es + [claim] + [answer]) == answer;
    assert es + m.events == es + [claim] + [answer];
    RoundStep(c, Run(c, es), claim, answer);
  }

  lemma RetentionStep(c: Config, es: seq<Event>, e: Event)
    requires c.maxAttempts >= 1 && Valid(c, es) && Valid(c, es + [e]) && e.Purge?
    ensures Moved(Run(c, es), Run(c, es + [e]), false)
  {
    hide Work, Apply;
    RunsKeepInv(c, es);
    assert Front(es + [e]) == es && Last(es + [e]) == e;
    PurgeStep(c, Run(c, es), e);
  }

  lemma MoveStep(c: Config, es: seq<Event>, m: Move)
    requires c.maxAttempts >= 1 && Valid(c, es) && Run(c, es).worker.Idle? && IsMove(c, es, m)
    ensures Valid(c, es + EventsOf(m)) && Moved(Run(c, es), Run(c, es + EventsOf(m)), Counts(c, es, m))
  {
    hide Run, Valid, Work, Moved;
    match m
    case Round(at, events) =>
      if events == [] {
        assert es + events == es;
        EmptyRoundStep(c, es, m);
      } else {
        FullRoundStep(c, es, m);
      }
    case Retention(at, cutoff) => RetentionStep(c, es, Purge(at, cutoff));
  }

  lemma {:induction false} MovesSpendWork(c: Config, es: seq<Event>, moves: seq<Move>)
    requires c.maxAttempts >= 1 && Valid(c, es) && Run(c, es).worker.Idle? && Plays(c, es, moves)
    ensures Valid(c, Play(es, moves))
    ensures var w, w' := Run(c, es), Run(c, Play(es, moves));
            && w'.worker.Idle? && SameRunning(w.db, w'.db)
            && (Work(w'.db) + Rounds(c, es, moves) <= Work(w.db) || NoneWaiting(w'.db))
  {
    if moves != [] {
      var front, last := moves[..|moves| - 1], moves[|moves| - 1];
      MovesSpendWork(c, es, front);
      MoveStep(c, Play(es, front), last);
      assert Play(es, moves) == Play(es, front) + EventsOf(last);
    }
  }

  /** The queue drains: from any moment at which the worker is idle, whatever its rounds are
      answered and whenever it purges, once as many rounds have counted as there was work,
      every job is finished, except the rows that were left running by a crash: they are
      still there, unchanged. */
  lemma QueueDrains(c: Config, es: seq<Event>, moves: seq<Move>)
    requires c.maxAttempts >= 1 && Valid(c, es) && Run(c, es).worker.Idle? && Plays(c, es, moves)
    requires Rounds(c, es, moves) >= Work(Run(c, es).db)
    ensures Valid(c, Play(es, moves)) && Run(c, Play(es, moves)).worker.Idle?
    ensures var s, s' := Run(c, es).db, Run(c, Play(es, moves)).db;
            && (forall id :: id in s'.jobs ==> Finished(s'.jobs[id]) || IsRunning(s', id))
            && (forall id :: IsRunning(s', id) <==> IsRunning(s, id))
            && (forall id :: IsRunning(s, id) ==> s'.jobs[id] == s.jobs[id])
  {
    MovesSpendWork(c, es, moves);
    RunsKeepInv(c, Play(es, moves));
    var s' := Run(c, Play(es, moves)).db;
    if Work(s') == 0 {
      NoWorkNoWaitingRow(s'.jobs, s'.nextId);
    }
    assert NoneWaiting(s');
  }

  // ---------- Such rounds exist, whatever the answers ----------

  datatype Answer =
    | Commits(verdict: Verdict, model: Model, items: seq<Item>, findingKey: string)
    | Fails(error: Failure)

  /** How a round ends: a commit that its checks let through, and a failure otherwise. */
  function Response(job: Job, a: Answer, at: int): Event {
    match a
    case Fails(error) => Fail(at, error)
    case Commits(verdict, model, items, findingKey) =>
      if Acceptable(job, verdict, items) then Complete(at, verdict, model, items, findingKey)
      else Fail(at, UNSUPPLIED)
  }

  predicate Acceptable(job: Job, verdict: Verdict, items: seq<Item>) {
    Numbered(items) && |items| <= job.request.rowLimit && forall id :: id in verdict.cited ==> id in Ids(items)
  }

  /** A round that is answered so. */
  ghost predicate Answered(c: Config, es: seq<Event>, m: Move, a: Answer) {
    && m.Round? && IsMove(c, es, m)
    && (m.events != [] ==>
          var w := Run(c, es + [m.events[0]]);
          w.worker.Holding? && m.events[1] == Response(w.worker.job, a, m.at))
  }

  lemma ResponseIsEnabled(c: Config, w: World, claim: Event, a: Answer)
    requires Enabled(c, w, claim) && claim.Claim?
    ensures var w' := Apply(c, w, claim);
            && w'.worker.Holding?
            && var answer := Response(w'.worker.job, a, claim.at);
            answer.at == claim.at && (answer.Complete? || answer.Fail?) && Enabled(c, w', answer)
  {
    hide Numbered;
  }

  lemma RoundExists(c: Config, es: seq<Event>, a: Answer, at: int) returns (m: Move)
    requires Valid(c, es) && Run(c, es).worker.Idle? && Run(c, es).clock <= at
    ensures Answered(c, es, m, a) && m.at == at
  {
    hide Response, EvidenceAdded, Sighted;
    var w := Run(c, es);
    if due :| due in w.db.jobs && Due(w.db.jobs[due], at) {
      SomeDueRowIsOldest(w.db.jobs, at, due);
      var id :| OldestDue(w.db.jobs, at, id);
      var claim := Claim(at, id);
      OneMore(c, es, claim);
      ResponseIsEnabled(c, w, claim, a);
      var answer := Response(Run(c, es + [claim]).worker.job, a, at);
      OneMore(c, es + [claim], answer);
      m := Round(at, [claim, answer]);
    } else {
      m := Round(at, []);
    }
  }

  /** Rounds a longest wait or more apart, answered one by one. */
  ghost predicate Follows(c: Config, es: seq<Event>, moves: seq<Move>, answers: seq<Answer>) {
    && |moves| == |answers|
    && (moves != [] ==>
          var front, last := moves[..|moves| - 1], |moves| - 1;
          && Follows(c, es, front, answers[..last])
          && Answered(c, Play(es, front), moves[last], answers[last])
          && moves[last].at >= Run(c, Play(es, front)).clock + LONGEST_WAIT)
  }

  lemma OneMoveMore(c: Config, es: seq<Event>, front: seq<Move>, m: Move, answers: seq<Answer>)
    requires answers != [] && Plays(c, es, front) && Follows(c, es, front, answers[..|answers| - 1])
    requires Answered(c, Play(es, front), m, answers[|answers| - 1])
    requires m.at >= Run(c, Play(es, front)).clock + LONGEST_WAIT
    ensures Plays(c, es, front + [m]) && Follows(c, es, front + [m], answers)
  {
    hide Run, Valid, Scheduled, IsMove, Response;
    var moves := front + [m];
    assert moves[..|moves| - 1] == front && moves[|moves| - 1] == m;
  }

  /** Such rounds can be made for any sequence of answers. */
  lemma {:induction false} RoundsExist(c: Config, es: seq<Event>, answers: seq<Answer>) returns (moves: seq<Move>)
    requires c.maxAttempts >= 1 && Valid(c, es) && Run(c, es).worker.Idle?
    ensures Plays(c, es, moves) && Follows(c, es, moves, answers)
  {
    hide Run, Valid, Work, Scheduled, IsMove, SameRunning, NoneWaiting, Inv, Response;
    moves := [];
    if answers != [] {
      var last := |answers| - 1;
      var front := RoundsExist(c, es, answers[..last]);
      MovesSpendWork(c, es, front);
      var before := Play(es, front);
      var m := RoundExists(c, before, answers[last], Run(c, before).clock + LONGEST_WAIT);
      OneMoveMore(c, es, front, m, answers);
      moves := front + [m];
    }
  }

  lemma {:induction false} SpacedRoundsCount(c: Config, es: seq<Event>, moves: seq<Move>, answers: seq<Answer>)
    requires c.maxAttempts >= 1 && Valid(c, es) && Run(c, es).worker.Idle? && Follows(c, es, moves, answers)
    ensures Plays(c, es, moves) && Rounds(c, es, moves) == |answers|
  {
    hide Run, Valid, Work, Scheduled, IsMove, SameRunning, NoneWaiting, Inv, Response;
    if moves != [] {
      var front, last := moves[..|moves| - 1], |moves| - 1;
      SpacedRoundsCount(c, es, front, answers[..last]);
      MovesSpendWork(c, es, front);
      WaitsAreShort(c, Play(es, front));
    }
  }

  /** Whatever the answers, every worker that makes a round every 512 seconds, or less often,
      has emptied the queue after as many rounds as there was work. */
  lemma AnyAnswersDrain(c: Config, es: seq<Event>, moves: seq<Move>, answers: seq<Answer>)
    requires c.maxAttempts >= 1 && Valid(c, es) && Run(c, es).worker.Idle? && Follows(c, es, moves, answers)
    requires |answers| >= Work(Run(c, es).db)
    ensures Valid(c, Play(es, moves)) && NoneWaiting(Run(c, Play(es, moves)).db)
  {
    hide Run, Valid, Work, Plays, Follows, Rounds;
    SpacedRoundsCount(c, es, moves, answers);
    QueueDrains(c, es, moves);
  }
}
