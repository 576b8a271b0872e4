/** The outbox drains. */
module OutboxDrain {
  import opened Basics
  import opened Outbox
  import opened OutboxRuns

  /** The attempts a row may still cost. */
  ghost function RowWeight(row: Delivery): nat {
    if Active(row) then Max(0, row.maxAttempts - row.attempts) else 0
  }

  ghost function Weights(rows: map<nat, Delivery>): map<nat, nat> {
    map id | id in rows :: RowWeight(rows[id])
  }

  /** The attempts left in the rows numbered below `n`. */
  ghost function Ahead(rows: map<nat, Delivery>, n: nat): nat {
    Sum(Weights(rows), n)
  }

  lemma AttemptSpends(w: World, e: Event, n: nat)
    requires Inv(w) && Enabled(w, e) && (e.Ack? || e.Fail?)
    ensures Ahead(Apply(w, e).rows, n) + (if Current(w.worker) < n then 1 else 0) <= Ahead(w.rows, n)
  {
    CurrentIsDue(w);
    var id := Current(w.worker);
    var a, b := Weights(w.rows), Weights(Apply(w, e).rows);
    forall k: nat | k != id ensures Weight(a, k) == Weight(b, k) {
    }
    if id < n {
      SumAfterOneChange(a, b, n, id);
      assert Weight(b, id) + 1 <= Weight(a, id);
    } else {
      SumIsMonotone(b, a, n);
    }
  }

  lemma OthersSpendNothing(w: World, e: Event, n: nat)
    requires Inv(w) && Enabled(w, e) && !e.Ack? && !e.Fail? && n <= w.nextId
    ensures Ahead(Apply(w, e).rows, n) <= Ahead(w.rows, n)
  {
    SumIsMonotone(Weights(Apply(w, e).rows), Weights(w.rows), n);
  }

  // ---------- Draining ----------

  ghost function Attempts(es: seq<Event>): nat {
    if es == [] then 0 else Attempts(Front(es)) + if Last(es).Ack? || Last(es).Fail? then 1 else 0
  }

  ghost function Enqueues(es: seq<Event>): nat {
    if es == [] then 0 else Enqueues(Front(es)) + if Last(es).Enqueue? then 1 else 0
  }

  lemma StepIsPaidFor(w: World, e: Event)
    requires Inv(w) && Enabled(w, e)
    ensures var w' := Apply(w, e);
            Ahead(w'.rows, w'.nextId) + (if e.Ack? || e.Fail? then 1 else 0) <=
            Ahead(w.rows, w.nextId) + if e.Enqueue? then MAX_ATTEMPTS else 0
  {
    if e.Ack? || e.Fail? {
      CurrentIsDue(w);
      AttemptSpends(w, e, w.nextId);
    } else {
      OthersSpendNothing(w, e, w.nextId);
      if e.Enqueue? {
        assert Weight(Weights(Apply(w, e).rows), w.nextId) == MAX_ATTEMPTS;
      }
    }
  }

  /** Delivery attempts are paid for, crashes or not: from any point of a run on, the attempts
      made and those left are covered by those left before and ten per row enqueued. */
  lemma {:induction false} AttemptsArePaidFor(epoch: int, es: seq<Event>, more: seq<Event>)
    requires Valid(epoch, es + more)
    ensures Valid(epoch, es)
    ensures var w, w' := Run(epoch, es), Run(epoch, es + more);
            Attempts(es + more) - Attempts(es) + Ahead(w'.rows, w'.nextId) <=
            Ahead(w.rows, w.nextId) + MAX_ATTEMPTS * (Enqueues(es + more) - Enqueues(es))
    decreases |more|
  {
    var all := es + more;
    if more == [] {
      assert all == es;
    } else {
      assert Front(all) == es + Front(more) && Last(all) == Last(more);
      AttemptsArePaidFor(epoch, es, Front(more));
      RunsKeepInv(epoch, Front(all));
      StepIsPaidFor(Run(epoch, Front(all)), Last(all));
    }
  }

  lemma {:induction false} SomeWeightLeft(rows: map<nat, Delivery>, n: nat, id: nat)
    requires id < n && id in rows && RowWeight(rows[id]) >= 1
    ensures Ahead(rows, n) >= 1
  {
    if id < n - 1 {
      SomeWeightLeft(rows, n - 1, id);
    } else {
      assert Weight(Weights(rows), id) >= 1;
    }
  }

  /** While nothing is enqueued, the attempts made never exceed those that were left, and once
      they are all made no row is active. */
  lemma QuietAttemptsAreBounded(epoch: int, es: seq<Event>, more: seq<Event>)
    requires Valid(epoch, es + more) && Enqueues(es + more) == Enqueues(es)
    ensures var w := Run(epoch, es); Attempts(es + more) - Attempts(es) <= Ahead(w.rows, w.nextId)
    ensures var w, w' := Run(epoch, es), Run(epoch, es + more);
            Attempts(es + more) - Attempts(es) == Ahead(w.rows, w.nextId) ==>
              forall id :: id in w'.rows ==> !Active(w'.rows[id])
  {
    AttemptsArePaidFor(epoch, es, more);
    RunsKeepInv(epoch, es + more);
    var w' := Run(epoch, es + more);
    forall id | id in w'.rows && Active(w'.rows[id]) ensures Ahead(w'.rows, w'.nextId) >= 1 {
      assert RowOk(w'.rows[id], w'.clock);
      SomeWeightLeft(w'.rows, w'.nextId, id);
    }
  }

  // ---------- Flushes that go through ----------

  const LONGEST_WAIT := 1024

  /** The last time at which some row was given a time to wait for. */
  ghost function Scheduled(epoch: int, es: seq<Event>): int {
    if es == [] then epoch
    else if Last(es).Enqueue? || Last(es).Fail? then Last(es).at
    else Scheduled(epoch, Front(es))
  }

  lemma WaitStaysShort(w: World, e: Event, id: nat, scheduled: int)
    requires Inv(w) && Enabled(w, e) && id in Apply(w, e).rows && scheduled <= w.clock
    requires id in w.rows ==> w.rows[id].availableAt <= scheduled + LONGEST_WAIT
    ensures Apply(w, e).rows[id].availableAt <= (if e.Enqueue? || e.Fail? then e.at else scheduled) + LONGEST_WAIT
  {
    if e.Fail? {
      CurrentIsDue(w);
      DelaysNeverDecrease(w.worker.read[Current(w.worker)].attempts + 1);
    }
  }

  /** No row ever waits longer than 1024 seconds from the last scheduling on. */
  lemma {:induction false} WaitsAreShort(epoch: int, es: seq<Event>)
    requires Valid(epoch, es)
    ensures Scheduled(epoch, es) <= Run(epoch, es).clock
    ensures forall id :: id in Run(epoch, es).rows ==>
              Run(epoch, es).rows[id].availableAt <= Scheduled(epoch, es) + LONGEST_WAIT
  {
    if es != [] {
      WaitsAreShort(epoch, Front(es));
      RunsKeepInv(epoch, Front(es));
      ClockFollows(Run(epoch, Front(es)), Last(es));
      forall id | id in Run(epoch, es).rows
        ensures Run(epoch, es).rows[id].availableAt <= Scheduled(epoch, es) + LONGEST_WAIT
      {
        WaitStaysShort(Run(epoch, Front(es)), Last(es), id, Scheduled(epoch, Front(es)));
      }
    }
  }

  lemma ClockFollows(w: World, e: Event)
    requires Inv(w) && Enabled(w, e)
    ensures Apply(w, e).clock == e.at >= w.clock
  {
    if w.worker.Flushing? {
      CurrentIsDue(w);
    }
  }

  ghost predicate IsTurn(e: Event) {
    e.Call? || e.Ack? || e.Fail?
  }

  /** A flush that deals with its whole batch; the calls go well or badly as they like. */
  ghost predicate IsFlush(epoch: int, es: seq<Event>, events: seq<Event>) {
    && events != [] && events[0].Flush? && (forall i :: 0 < i < |events| ==> IsTurn(events[i]))
    && Valid(epoch, es + events) && Run(epoch, es + events).worker.Idle?
  }

  /** What an idle worker does by itself. */
  datatype Move = Flushed(events: seq<Event>) | Retention(at: int, cutoff: int)

  function EventsOf(m: Move): seq<Event> {
    match m
    case Flushed(events) => events
    case Retention(at, cutoff) => [Purge(at, cutoff)]
  }

  ghost predicate IsMove(epoch: int, es: seq<Event>, m: Move) {
    match m
    case Flushed(events) => IsFlush(epoch, es, events)
    case Retention(at, cutoff) => Valid(epoch, es + [Purge(at, cutoff)])
  }

  function Play(es: seq<Event>, moves: seq<Move>): seq<Event> {
    if moves == [] then es else Play(es, moves[..|moves| - 1]) + EventsOf(moves[|moves| - 1])
  }

  ghost predicate Plays(epoch: int, es: seq<Event>, moves: seq<Move>) {
    moves != [] ==>
      var front := moves[..|moves| - 1];
      Plays(epoch, es, front) && IsMove(epoch, Play(es, front), moves[|moves| - 1])
  }

  /** What a flush counts for: the rows of its batch, and at least one when it could have found
      any active row, because it came when the longest wait was over. */
  ghost function Value(epoch: int, es: seq<Event>, m: Move): nat {
    if !m.Flushed? || m.events == [] || !m.events[0].Flush? then 0
    else Max(|m.events[0].batch|, if m.events[0].at >= Scheduled(epoch, es) + LONGEST_WAIT then 1 else 0)
  }

  ghost function Values(epoch: int, es: seq<Event>, moves: seq<Move>): nat {
    if moves == [] then 0
    else
      var front := moves[..|moves| - 1];
      Values(epoch, es, front) + Value(epoch, Play(es, front), moves[|moves| - 1])
  }

  ghost predicate NoneActive(rows: map<nat, Delivery>) {
    forall id :: id in rows ==> !Active(rows[id])
  }

  ghost function Left(w: World): nat {
    Ahead(w.rows, w.nextId)
  }

  /** A flush in progress has spent an attempt for every row dealt with; one that is through,
      for every row of its batch. */
  ghost predicate Spends(start: World, batch: seq<nat>, w: World) {
    match w.worker
    case Flushing(b, _, _, done, _) => b == batch && Left(w) + done <= Left(start)
    case Idle => Left(w) + |batch| <= Left(start)
    case Down => false
  }

  lemma FlushBegins(start: World, e: Event)
    requires Inv(start) && Enabled(start, e) && e.Flush?
    ensures Spends(start, e.batch, Apply(start, e))
  {
  }

  lemma TurnSpends(start: World, batch: seq<nat>, w: World, e: Event)
    requires Inv(w) && Enabled(w, e) && IsTurn(e) && Spends(start, batch, w)
    ensures Spends(start, batch, Apply(w, e))
  {
    if !e.Call? {
      CurrentIsDue(w);
      AttemptSpends(w, e, w.nextId);
    }
  }

  lemma {:induction false} FlushSpends(epoch: int, es: seq<Event>, events: seq<Event>)
    requires events != [] && events[0].Flush? && forall i :: 0 < i < |events| ==> IsTurn(events[i])
    requires Valid(epoch, es + events)
    ensures Valid(epoch, es) && Spends(Run(epoch, es), events[0].batch, Run(epoch, es + events))
    decreases |events|
  {
    var all, front, last := es + events, events[..|events| - 1], events[|events| - 1];
    assert Front(all) == es + front && Last(all) == last;
    RunsKeepInv(epoch, Front(all));
    if front == [] {
      assert es + front == es;
      FlushBegins(Run(epoch, es), last);
    } else {
      FlushSpends(epoch, es, front);
      TurnSpends(Run(epoch, es), events[0].batch, Run(epoch, es + front), last);
    }
  }

  lemma {:induction false} NothingLeft(rows: map<nat, Delivery>, n: nat, id: nat)
    requires Ahead(rows, n) == 0 && id < n && id in rows
    ensures RowWeight(rows[id]) == 0
  {
    if RowWeight(rows[id]) >= 1 {
      SomeWeightLeft(rows, n, id);
    }
  }

  lemma NothingLeftNoneActive(w: World)
    requires Inv(w) && Left(w) == 0
    ensures NoneActive(w.rows)
  {
    forall id | id in w.rows ensures !Active(w.rows[id]) {
      assert RowOk(w.rows[id], w.clock);
      NothingLeft(w.rows, w.nextId, id);
    }
  }

  lemma {:induction false} FirstIsEnabled(epoch: int, es: seq<Event>, events: seq<Event>)
    requires events != [] && Valid(epoch, es + events)
    ensures Valid(epoch, es) && Enabled(Run(epoch, es), events[0])
    ensures Valid(epoch, es + [events[0]]) && Run(epoch, es + [events[0]]) == Apply(Run(epoch, es), events[0])
    decreases |events|
  {
    var all, front := es + events, events[..|events| - 1];
    assert Front(all) == es + front && Last(all) == events[|events| - 1];
    if front == [] {
      assert es + front == es && events == [events[0]];
    } else {
      FirstIsEnabled(epoch, es, front);
    }
  }

  lemma EmptyFlushIsAlone(epoch: int, es: seq<Event>, events: seq<Event>)
    requires IsFlush(epoch, es, events) && events[0].batch == []
    ensures events == [events[0]] && Run(epoch, es + events).rows == Run(epoch, es).rows
  {
    hide Run, Valid;
    FirstIsEnabled(epoch, es, events);
    if |events| > 1 {
      assert es + [events[0]] + events[1..] == es + events;
      FirstIsEnabled(epoch, es + [events[0]], events[1..]);
      assert false;
    }
  }

  /** A full batch or a batch of all due rows: an empty one leaves no row due. */
  lemma FlushStep(epoch: int, es: seq<Event>, events: seq<Event>)
    requires IsFlush(epoch, es, events)
    ensures var w, w' := Run(epoch, es), Run(epoch, es + events);
            && (NoneActive(w.rows) ==> NoneActive(w'.rows))
            && (Left(w') + Value(epoch, es, Flushed(events)) <= Left(w) || NoneActive(w'.rows))
  {
    hide Run, Valid;
    FirstIsEnabled(epoch, es, events);
    FlushSpends(epoch, es, events);
    WaitsAreShort(epoch, es);
    var batch := events[0].batch;
    if batch == [] {
      EmptyFlushIsAlone(epoch, es, events);
    } else {
      assert Active(Run(epoch, es).rows[batch[0]]);
    }
  }

  lemma MoveStep(epoch: int, es: seq<Event>, m: Move)
    requires Valid(epoch, es) && Run(epoch, es).worker.Idle? && IsMove(epoch, es, m)
    ensures var w, w' := Run(epoch, es), Run(epoch, es + EventsOf(m));
            && Valid(epoch, es + EventsOf(m)) && w'.worker.Idle?
            && (NoneActive(w.rows) ==> NoneActive(w'.rows))
            && (Left(w') + Value(epoch, es, m) <= Left(w) || NoneActive(w'.rows))
  {
    match m
    case Flushed(events) => FlushStep(epoch, es, events);
    case Retention(at, cutoff) =>
      var e := Purge(at, cutoff);
      assert Front(es + [e]) == es && Last(es + [e]) == e;
      RunsKeepInv(epoch, es);
      OthersSpendNothing(Run(epoch, es), e, Run(epoch, es).nextId);
  }

  lemma {:induction false} MovesSpendAttempts(epoch: int, es: seq<Event>, moves: seq<Move>)
    requires Valid(epoch, es) && Run(epoch, es).worker.Idle? && Plays(epoch, es, moves)
    ensures Valid(epoch, Play(es, moves))
    ensures var w, w' := Run(epoch, es), Run(epoch, Play(es, moves));
            w'.worker.Idle? && (Left(w') + Values(epoch, es, moves) <= Left(w) || NoneActive(w'.rows))
  {
    if moves != [] {
      var front, last := moves[..|moves| - 1], moves[|moves| - 1];
      MovesSpendAttempts(epoch, es, front);
      MoveStep(epoch, Play(es, front), last);
    }
  }

  /** The outbox drains: from any moment at which the worker is idle, however its calls go and
      whenever it purges, once its flushes count for as many attempts as were left, every row
      is sent or has failed for good. */
  lemma OutboxDrains(epoch: int, es: seq<Event>, moves: seq<Move>)
    requires Valid(epoch, es) && Run(epoch, es).worker.Idle? && Plays(epoch, es, moves)
    requires Values(epoch, es, moves) >= Left(Run(epoch, es))
    ensures Valid(epoch, Play(es, moves)) && Run(epoch, Play(es, moves)).worker.Idle?
    ensures var rows := Run(epoch, Play(es, moves)).rows;
            forall id :: id in rows ==> rows[id].status == Sent || rows[id].status == Failed
  {
    MovesSpendAttempts(epoch, es, moves);
    RunsKeepInv(epoch, Play(es, moves));
    if Left(Run(epoch, Play(es, moves))) == 0 {
      NothingLeftNoneActive(Run(epoch, Play(es, moves)));
    }
    assert NoneActive(Run(epoch, Play(es, moves)).rows);
  }

  // ---------- Such flushes exist, however the calls go ----------

  /** The oldest rows of a set, oldest first. */
  lemma {:induction false} OldestOf(ids: set<nat>, time: nat -> int, limit: nat) returns (batch: seq<nat>)
    ensures |batch| <= limit && forall i :: 0 <= i < |batch| ==> batch[i] in ids
    ensures forall i, j :: 0 <= i < j < |batch| ==> batch[i] != batch[j] && time(batch[i]) <= time(batch[j])
    ensures forall id :: id in ids && id !in batch ==>
              |batch| == limit && forall i :: 0 <= i < |batch| ==> time(batch[i]) <= time(id)
  {
    batch := [];
    if limit > 0 && ids != {} {
      var least := LeastOf(ids, time);
      var rest := OldestOf(ids - {least}, time, limit - 1);
      batch := [least] + rest;
    }
  }

  lemma BatchExists(rows: map<nat, Delivery>, now: int, limit: nat) returns (batch: seq<nat>)
    ensures IsBatch(rows, now, limit, batch)
  {
    var due := set id | id in rows && Due(rows[id], now);
    batch := OldestOf(due, id => if id in rows then rows[id].createdAt else 0, limit);
  }

  /** What becomes of a call for a row: nothing to report, or an error. */
  type Outcomes = nat -> Option<string>

  function Noted(outcomes: Outcomes, id: nat, at: int): Event {
    match outcomes(id)
    case None => Ack(at)
    case Some(error) => Fail(at, error)
  }

  /** Every note of the events that follow a run is the outcome of its row. */
  ghost predicate Follows(epoch: int, es: seq<Event>, events: seq<Event>, outcomes: Outcomes)
    decreases |events|
  {
    events != [] ==>
      && NotesOutcome(Run(epoch, es).worker, events[0], outcomes)
      && Follows(epoch, es + [events[0]], events[1..], outcomes)
  }

  ghost predicate NotesOutcome(worker: Worker, e: Event, outcomes: Outcomes) {
    e.Ack? || e.Fail? ==> worker.Flushing? && e == Noted(outcomes, Current(worker), e.at)
  }

  lemma PrependEvent(epoch: int, es: seq<Event>, e: Event, events: seq<Event>, outcomes: Outcomes)
    requires Follows(epoch, es + [e], events, outcomes) && NotesOutcome(Run(epoch, es).worker, e, outcomes)
    ensures Follows(epoch, es, [e] + events, outcomes) && es + ([e] + events) == es + [e] + events
  {
    assert ([e] + events)[1..] == events;
    assert es + ([e] + events) == es + [e] + events;
  }

  lemma TurnExists(epoch: int, es: seq<Event>, at: int, outcomes: Outcomes) returns (call: Event, note: Event)
    requires Valid(epoch, es) && Run(epoch, es).clock <= at
    requires Run(epoch, es).worker.Flushing? && !Run(epoch, es).worker.calling
    ensures IsTurn(call) && IsTurn(note) && Valid(epoch, es + [call] + [note])
    ensures NotesOutcome(Run(epoch, es).worker, call, outcomes)
    ensures NotesOutcome(Run(epoch, es + [call]).worker, note, outcomes)
    ensures var w, w' := Run(epoch, es), Run(epoch, es + [call] + [note]);
            w'.worker == Advance(w.worker) && w'.clock <= at
  {
    var w := Run(epoch, es);
    call, note := Call(at), Noted(outcomes, Current(w.worker), at);
    OneMore(epoch, es, call);
    OneMore(epoch, es + [call], note);
    RunsKeepInv(epoch, es);
    CurrentIsDue(w);
  }

  ghost function Remaining(worker: Worker): nat {
    if worker.Flushing? then Max(0, |worker.batch| - worker.done) else 0
  }

  lemma {:induction false} TurnsExist(epoch: int, es: seq<Event>, at: int, outcomes: Outcomes)
    returns (events: seq<Event>)
    requires Valid(epoch, es) && Run(epoch, es).clock <= at
    requires var worker := Run(epoch, es).worker; !worker.Down? && (worker.Flushing? ==> !worker.calling)
    ensures forall i :: 0 <= i < |events| ==> IsTurn(events[i])
    ensures Valid(epoch, es + events) && Run(epoch, es + events).worker.Idle?
    ensures Follows(epoch, es, events, outcomes)
    decreases Remaining(Run(epoch, es).worker)
  {
    hide Run, Valid, NotesOutcome;
    events := [];
    assert es + [] == es;
    if Run(epoch, es).worker.Flushing? {
      RunsKeepInv(epoch, es);
      var call, note := TurnExists(epoch, es, at, outcomes);
      var more := TurnsExist(epoch, es + [call] + [note], at, outcomes);
      PrependEvent(epoch, es + [call], note, more, outcomes);
      PrependEvent(epoch, es, call, [note] + more, outcomes);
      events := [call] + ([note] + more);
    }
  }

  lemma FlushExists(epoch: int, es: seq<Event>, at: int, outcomes: Outcomes) returns (events: seq<Event>)
    requires Valid(epoch, es) && Run(epoch, es).worker.Idle? && Run(epoch, es).clock <= at
    ensures IsFlush(epoch, es, events) && events[0].at == at && Follows(epoch, es, events, outcomes)
  {
    hide Valid, Run;
    var batch := BatchExists(Run(epoch, es).rows, at, BATCH);
    var flush := Flush(at, batch);
    OneMore(epoch, es, flush);
    var turns := TurnsExist(epoch, es + [flush], at, outcomes);
    PrependEvent(epoch, es, flush, turns, outcomes);
    events := [flush] + turns;
  }

  /** Flushes a longest wait or more apart, each with its own outcomes. */
  ghost predicate Spaced(epoch: int, es: seq<Event>, moves: seq<Move>, outcomes: seq<Outcomes>) {
    && |moves| == |outcomes|
    && (moves != [] ==>
          var front, last := moves[..|moves| - 1], |moves| - 1;
          var before := Play(es, front);
          && Spaced(epoch, es, front, outcomes[..last])
          && moves[last].Flushed? && IsFlush(epoch, before, moves[last].events)
          && moves[last].events[0].at >= Run(epoch, before).clock + LONGEST_WAIT
          && Follows(epoch, before, moves[last].events, outcomes[last]))
  }

  lemma OneFlushMore(epoch: int, es: seq<Event>, front: seq<Move>, events: seq<Event>, outcomes: seq<Outcomes>)
    requires outcomes != [] && Plays(epoch, es, front) && Spaced(epoch, es, front, outcomes[..|outcomes| - 1])
    requires var before := Play(es, front);
             && IsFlush(epoch, before, events) && Follows(epoch, before, events, outcomes[|outcomes| - 1])
             && events[0].at >= Run(epoch, before).clock + LONGEST_WAIT
    ensures Plays(epoch, es, front + [Flushed(events)]) && Spaced(epoch, es, front + [Flushed(events)], outcomes)
  {
    hide Run, Valid, Scheduled, Follows;
    var moves := front + [Flushed(events)];
    assert moves[..|moves| - 1] == front && moves[|moves| - 1] == Flushed(events);
  }

  /** Such flushes can be made for any outcomes. */
  lemma {:induction false} FlushesExist(epoch: int, es: seq<Event>, outcomes: seq<Outcomes>) returns (moves: seq<Move>)
    requires Valid(epoch, es) && Run(epoch, es).worker.Idle?
    ensures Plays(epoch, es, moves) && Spaced(epoch, es, moves, outcomes)
  {
    hide Run, Valid, Scheduled, Follows, IsFlush, Left, NoneActive;
    moves := [];
    if outcomes != [] {
      var front := FlushesExist(epoch, es, outcomes[..|outcomes| - 1]);
      MovesSpendAttempts(epoch, es, front);
      var before := Play(es, front);
      var events := FlushExists(epoch, before, Run(epoch, before).clock + LONGEST_WAIT, outcomes[|outcomes| - 1]);
      OneFlushMore(epoch, es, front, events, outcomes);
      moves := front + [Flushed(events)];
    }
  }

  lemma {:induction false} SpacedFlushesCount(epoch: int, es: seq<Event>, moves: seq<Move>, outcomes: seq<Outcomes>)
    requires Valid(epoch, es) && Run(epoch, es).worker.Idle? && Spaced(epoch, es, moves, outcomes)
    ensures Plays(epoch, es, moves) && Values(epoch, es, moves) >= |outcomes|
  {
    hide Run, Valid, Scheduled, Follows, Left, NoneActive;
    if moves != [] {
      var front, last := moves[..|moves| - 1], |moves| - 1;
      SpacedFlushesCount(epoch, es, front, outcomes[..last]);
      MovesSpendAttempts(epoch, es, front);
      WaitsAreShort(epoch, Play(es, front));
    }
  }

  /** However the calls go, every worker that flushes every 1024 seconds, or less often, leaves
      no row active after as many flushes as there were attempts left. */
  lemma AnyOutcomesDrain(epoch: int, es: seq<Event>, moves: seq<Move>, outcomes: seq<Outcomes>)
    requires Valid(epoch, es) && Run(epoch, es).worker.Idle? && Spaced(epoch, es, moves, outcomes)
    requires |outcomes| >= Left(Run(epoch, es))
    ensures Valid(epoch, Play(es, moves)) && NoneActive(Run(epoch, Play(es, moves)).rows)
  {
    hide Run, Valid, Left, Plays, Spaced, Values;
    SpacedFlushesCount(epoch, es, moves, outcomes);
    OutboxDrains(epoch, es, moves);
  }
}
