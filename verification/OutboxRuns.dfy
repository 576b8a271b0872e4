/** Whole runs of the outbox: rows are enqueued at any time, one worker flushes batches and may
    crash at any point, also between an external call and the note of its result. */
module OutboxRuns {
  import opened Basics
  import opened Json
  import opened Outbox

  /** A flushing worker has its batch with the rows as it read them, the number of batch rows
      dealt with, and whether an external call for the next one has been made. */
  datatype Worker =
    | Down
    | Idle
    | Flushing(batch: seq<nat>, read: map<nat, Delivery>, since: int, done: nat, calling: bool)

  datatype World = World(rows: map<nat, Delivery>, nextId: nat, worker: Worker, clock: int)

  datatype Event =
    | Enqueue(at: int, channel: Channel, target: Option<nat>, payload: Json)
    | Start(at: int)
    | Flush(at: int, batch: seq<nat>)
    | Call(at: int)
    | Ack(at: int)
    | Fail(at: int, error: string)
    | Crash(at: int)
    | Purge(at: int, cutoff: int)

  ghost predicate Enabled(w: World, e: Event) {
    && w.clock <= e.at
    && match e
       case Start(_) => w.worker.Down?
       case Flush(at, batch) => w.worker.Idle? && IsBatch(w.rows, at, BATCH, batch)
       case Call(_) => w.worker.Flushing? && !w.worker.calling
       case Ack(_) => w.worker.Flushing? && w.worker.calling
       case Fail(_, _) => w.worker.Flushing?
       case Purge(_, _) => w.worker.Idle?
       case _ => true
  }

  /** The row the flush is at. */
  function Current(worker: Worker): nat
    requires worker.Flushing?
  {
    if worker.done < |worker.batch| then worker.batch[worker.done] else 0
  }

  function Advance(worker: Worker): Worker
    requires worker.Flushing?
  {
    if worker.done + 1 >= |worker.batch| then Idle else worker.(done := worker.done + 1, calling := false)
  }

  function Apply(w: World, e: Event): World {
    match e
    case Enqueue(at, channel, target, payload) =>
      w.(rows := w.rows[w.nextId := NewDelivery(channel, target, payload, at)], nextId := w.nextId + 1, clock := at)
    case Start(at) => w.(worker := Idle, clock := at)
    case Flush(at, batch) =>
      w.(worker := if batch == [] then Idle else Flushing(batch, w.rows, at, 0, false), clock := at)
    case Call(at) => if w.worker.Flushing? then w.(worker := w.worker.(calling := true), clock := at) else w
    case Ack(at) =>
      if w.worker.Flushing? && Current(w.worker) in w.rows then
        var id := Current(w.worker);
        w.(rows := w.rows[id := SentRow(w.rows[id], at)], worker := Advance(w.worker), clock := at)
      else w
    case Fail(at, error) =>
      if w.worker.Flushing? && Current(w.worker) in w.rows && Current(w.worker) in w.worker.read then
        var id := Current(w.worker);
        w.(rows := w.rows[id := FailedRow(w.rows[id], w.worker.read[id], error, at)],
           worker := Advance(w.worker), clock := at)
      else w
    case Crash(at) => w.(worker := Down, clock := at)
    case Purge(at, cutoff) => w.(rows := KeptRows(w.rows, cutoff), clock := at)
  }

  function Front(es: seq<Event>): seq<Event>
    requires es != []
  {
    es[..|es| - 1]
  }

  function Last(es: seq<Event>): Event
    requires es != []
  {
    es[|es| - 1]
  }

  function Run(epoch: int, es: seq<Event>): World {
    if es == [] then World(map[], 0, Down, epoch) else Apply(Run(epoch, Front(es)), Last(es))
  }

  ghost predicate Valid(epoch: int, es: seq<Event>) {
    es != [] ==> Valid(epoch, Front(es)) && Enabled(Run(epoch, Front(es)), Last(es))
  }

  lemma OneMore(epoch: int, es: seq<Event>, e: Event)
    requires Valid(epoch, es) && Enabled(Run(epoch, es), e)
    ensures Valid(epoch, es + [e]) && Run(epoch, es + [e]) == Apply(Run(epoch, es), e)
  {
    assert Front(es + [e]) == es && Last(es + [e]) == e;
  }

  /** The flushes begun. */
  ghost function Flushes(es: seq<Event>): nat {
    if es == [] then 0 else Flushes(Front(es)) + if Last(es).Flush? then 1 else 0
  }

  lemma FlushesOneMore(es: seq<Event>, e: Event)
    ensures Flushes(es + [e]) == Flushes(es) + if e.Flush? then 1 else 0
  {
    assert Front(es + [e]) == es && Last(es + [e]) == e;
  }

  // ---------- The invariant ----------

  /** A pending row has no attempts, a waiting one between one and nine, a failed one exactly
      ten, a sent one between one and ten; and every wait so far has been sat out. */
  ghost predicate RowOk(row: Delivery, clock: int) {
    && row.maxAttempts == MAX_ATTEMPTS && row.createdAt <= clock
    && match row.status
       case Pending => row.attempts == 0 && row.availableAt == row.updatedAt == row.createdAt
       case Retry =>
         && 1 <= row.attempts < MAX_ATTEMPTS && row.availableAt >= row.createdAt + Waits(row.attempts)
         && row.availableAt == row.updatedAt + Pow2(row.attempts)
       case Failed => row.attempts == MAX_ATTEMPTS && row.updatedAt >= row.createdAt + Waits(MAX_ATTEMPTS - 1)
       case Sent => 1 <= row.attempts <= MAX_ATTEMPTS && row.updatedAt >= row.createdAt + Waits(row.attempts - 1)
  }

  /** The rows a flush still has to deal with are as it read them, and due. */
  ghost predicate FlushOk(w: World) {
    w.worker.Flushing? ==>
      && w.worker.done < |w.worker.batch| && w.worker.since <= w.clock
      && IsBatch(w.worker.read, w.worker.since, BATCH, w.worker.batch)
      && forall i :: w.worker.done <= i < |w.worker.batch| ==>
           w.worker.batch[i] in w.rows && w.rows[w.worker.batch[i]] == w.worker.read[w.worker.batch[i]]
  }

  ghost predicate Inv(w: World) {
    && FlushOk(w)
    && (forall id :: id in w.rows ==> id < w.nextId && RowOk(w.rows[id], w.clock))
  }

  lemma CurrentIsDue(w: World)
    requires Inv(w) && w.worker.Flushing?
    ensures var id := Current(w.worker);
            && id in w.rows && id in w.worker.read && w.rows[id] == w.worker.read[id]
            && Active(w.rows[id]) && w.rows[id].availableAt <= w.clock && RowOk(w.rows[id], w.clock)
  {
    assert Current(w.worker) == w.worker.batch[w.worker.done];
  }

  lemma AttemptKeepsRowOk(row: Delivery, read: Delivery, error: string, clock: int, now: int)
    requires RowOk(row, clock) && Active(row) && row.availableAt <= clock <= now && read == row
    ensures RowOk(SentRow(row, now), now) && RowOk(FailedRow(row, read, error, now), now)
  {
    assert row.availableAt >= row.createdAt + Waits(row.attempts);
    DelaysNeverDecrease(row.attempts + 1);
  }

  lemma RowOkLater(row: Delivery, clock: int, later: int)
    requires RowOk(row, clock) && clock <= later
    ensures RowOk(row, later)
  {
    hide Waits;
  }

  lemma AttemptStep(w: World, e: Event)
    requires Inv(w) && Enabled(w, e) && (e.Ack? || e.Fail?)
    ensures Inv(Apply(w, e))
  {
    hide SentRow, FailedRow, RowOk;
    CurrentIsDue(w);
    var id := Current(w.worker);
    AttemptKeepsRowOk(w.rows[id], w.worker.read[id], if e.Fail? then e.error else "", w.clock, e.at);
    var w' := Apply(w, e);
    forall k | k in w'.rows ensures k < w'.nextId && RowOk(w'.rows[k], w'.clock) {
      if k != id { RowOkLater(w.rows[k], w.clock, e.at); }
    }
    forall i | w.worker.done < i < |w.worker.batch| ensures w.worker.batch[i] != id {
    }
  }

  lemma InvStep(w: World, e: Event)
    requires Inv(w) && Enabled(w, e)
    ensures Inv(Apply(w, e))
  {
    if e.Ack? || e.Fail? {
      AttemptStep(w, e);
    } else {
      var w' := Apply(w, e);
      forall k | k in w'.rows ensures k < w'.nextId && RowOk(w'.rows[k], w'.clock) {
        if k in w.rows { assert RowOk(w.rows[k], w.clock); }
      }
      QuietFlushOk(w, e);
    }
  }

  lemma QuietFlushOk(w: World, e: Event)
    requires Inv(w) && Enabled(w, e) && !e.Ack? && !e.Fail?
    ensures FlushOk(Apply(w, e))
  {
  }

  /** Every run keeps the row discipline. */
  lemma {:induction false} RunsKeepInv(epoch: int, es: seq<Event>)
    requires Valid(epoch, es)
    ensures Inv(Run(epoch, es))
  {
    if es != [] {
      RunsKeepInv(epoch, Front(es));
      InvStep(Run(epoch, Front(es)), Last(es));
    }
  }

  /** After k failed deliveries a row is not due before 2^(k+1) - 2 seconds after its creation,
      and no row fails for good before 1022 seconds. */
  lemma BackoffTimeline(epoch: int, es: seq<Event>, id: nat)
    requires Valid(epoch, es) && id in Run(epoch, es).rows
    ensures var row := Run(epoch, es).rows[id];
            && row.attempts <= 10
            && (Active(row) ==> row.availableAt >= row.createdAt + Pow2(row.attempts + 1) - 2)
            && (row.status == Failed ==> row.attempts == 10 && row.updatedAt >= row.createdAt + 1022)
  {
    hide Run, Valid, FlushOk;
    RunsKeepInv(epoch, es);
    RowTimeline(Run(epoch, es).rows[id], Run(epoch, es).clock);
  }

  lemma RowTimeline(row: Delivery, clock: int)
    requires RowOk(row, clock)
    ensures row.attempts <= 10
    ensures Active(row) ==> row.availableAt >= row.createdAt + Pow2(row.attempts + 1) - 2
    ensures row.status == Failed ==> row.attempts == 10 && row.updatedAt >= row.createdAt + 1022
  {
    hide Pow2, Waits;
    WaitsAreGeometric(0);
    WaitsAreGeometric(row.attempts);
    WaitsAreGeometric(9);
    PowersOfTwo();
    NoWaitYet();
  }

  lemma NoWaitYet()
    ensures Waits(0) == 0
  {
  }

  /** In every run, a row that waits again was rescheduled by exactly the doubling delay of its
      attempts, and one that never failed is due from its creation on. */
  lemma WaitsAreDoubling(epoch: int, es: seq<Event>, id: nat)
    requires Valid(epoch, es) && id in Run(epoch, es).rows
    ensures var row := Run(epoch, es).rows[id];
            && (row.status == Pending ==> row.attempts == 0 && row.availableAt == row.createdAt)
            && (row.status == Retry ==>
                  && 1 <= row.attempts <= 9
                  && row.availableAt == row.updatedAt + [1, 2, 4, 8, 16, 32, 64, 128, 256, 512, 1024][row.attempts])
  {
    hide Run, Valid, FlushOk, Pow2, Waits;
    RunsKeepInv(epoch, es);
    var row := Run(epoch, es).rows[id];
    assert RowOk(row, Run(epoch, es).clock);
    if row.status == Retry {
      PowerTable(row.attempts);
    }
  }

  // ---------- Settled rows ----------

  ghost predicate Settled(row: Delivery) {
    row.status == Sent || row.status == Failed
  }

  /** A purge at a cut-off after the last change of a row. */
  predicate Outlives(e: Event, row: Delivery) {
    e.Purge? && row.updatedAt < e.cutoff
  }

  lemma SettledStep(w: World, e: Event, id: nat)
    requires Inv(w) && Enabled(w, e) && id in w.rows
    ensures var row, w' := w.rows[id], Apply(w, e);
            && (id in w'.rows <==> !(Settled(row) && Outlives(e, row))) && id < w'.nextId
            && (Settled(row) && id in w'.rows ==> w'.rows[id] == row)
  {
    if w.worker.Flushing? {
      CurrentIsDue(w);
    }
  }

  lemma GoneStep(w: World, e: Event, id: nat)
    requires Inv(w) && Enabled(w, e) && id !in w.rows && id < w.nextId
    ensures id !in Apply(w, e).rows && id < Apply(w, e).nextId
  {
    if w.worker.Flushing? {
      CurrentIsDue(w);
    }
  }

  /** In every run, a row that was sent or has failed for good never changes: it is there, as it
      was, exactly until a purge at a cut-off after its last change; no other row is purged. */
  lemma {:induction false} SettledIsFinal(epoch: int, es: seq<Event>, more: seq<Event>, id: nat)
    requires Valid(epoch, es + more) && id in Run(epoch, es).rows && Settled(Run(epoch, es).rows[id])
    ensures Valid(epoch, es) && id < Run(epoch, es + more).nextId
    ensures var row, rows' := Run(epoch, es).rows[id], Run(epoch, es + more).rows;
            && (id in rows' <==> forall e :: e in more ==> !Outlives(e, row))
            && (id in rows' ==> rows'[id] == row)
    decreases |more|
  {
    hide Apply, Enabled, FlushOk, RowOk;
    if more == [] {
      assert es + more == es;
      RunsKeepInv(epoch, es);
    } else {
      var all, front, e := es + more, Front(more), Last(more);
      assert Front(all) == es + front && Last(all) == e;
      SettledIsFinal(epoch, es, front, id);
      RunsKeepInv(epoch, es + front);
      assert forall x :: x in more <==> x in front || x == e;
      if id in Run(epoch, es + front).rows {
        SettledStep(Run(epoch, es + front), e, id);
      } else {
        GoneStep(Run(epoch, es + front), e, id);
      }
    }
  }

  // ---------- External calls ----------

  ghost predicate CallsNow(w: World, id: nat) {
    w.worker.Flushing? && w.worker.calling && Current(w.worker) == id
  }

  ghost function Sends(epoch: int, es: seq<Event>, id: nat): nat {
    if es == [] then 0
    else
      var w := Run(epoch, Front(es));
      Sends(epoch, Front(es), id) + if Last(es).Call? && w.worker.Flushing? && Current(w.worker) == id then 1 else 0
  }

  /** Crashes after a call for the row and before the note of its result. */
  ghost function MidCrashes(epoch: int, es: seq<Event>, id: nat): nat {
    if es == [] then 0
    else MidCrashes(epoch, Front(es), id) + if Last(es).Crash? && CallsNow(Run(epoch, Front(es)), id) then 1 else 0
  }

  lemma {:induction false} NoSendsBeforeIssue(epoch: int, es: seq<Event>, id: nat)
    requires Valid(epoch, es) && id >= Run(epoch, es).nextId
    ensures Sends(epoch, es, id) == 0
  {
    if es != [] {
      var w := Run(epoch, Front(es));
      RunsKeepInv(epoch, Front(es));
      if w.worker.Flushing? { CurrentIsDue(w); }
      NoSendsBeforeIssue(epoch, Front(es), id);
    }
  }

  ghost predicate SendsAccounted(w: World, id: nat, sends: nat, midCrashes: nat)
    requires id in w.rows
  {
    && sends <= w.rows[id].attempts + midCrashes + (if CallsNow(w, id) then 1 else 0)
    && (CallsNow(w, id) || w.rows[id].status == Sent ==> sends >= 1)
  }

  lemma SendsStep(w: World, e: Event, id: nat, sends: nat, midCrashes: nat)
    requires Inv(w) && Enabled(w, e) && id in w.rows && id in Apply(w, e).rows
    requires SendsAccounted(w, id, sends, midCrashes)
    ensures SendsAccounted(Apply(w, e), id,
              sends + (if e.Call? && w.worker.Flushing? && Current(w.worker) == id then 1 else 0),
              midCrashes + (if e.Crash? && CallsNow(w, id) then 1 else 0))
  {
    if w.worker.Flushing? {
      CurrentIsDue(w);
      assert w.worker.done + 1 < |w.worker.batch| ==> w.worker.batch[w.worker.done + 1] != Current(w.worker);
    }
  }

  /** Delivery is at least once: a sent row has been called for, and a row is called for at
      most once per attempt and once more per crash in the middle of a delivery. */
  lemma {:induction false} DeliveryIsAtLeastOnce(epoch: int, es: seq<Event>, id: nat)
    requires Valid(epoch, es) && id in Run(epoch, es).rows
    ensures SendsAccounted(Run(epoch, es), id, Sends(epoch, es, id), MidCrashes(epoch, es, id))
  {
    var w, e := Run(epoch, Front(es)), Last(es);
    RunsKeepInv(epoch, Front(es));
    if id in w.rows {
      DeliveryIsAtLeastOnce(epoch, Front(es), id);
      SendsStep(w, e, id, Sends(epoch, Front(es), id), MidCrashes(epoch, Front(es), id));
    } else {
      NoSendsBeforeIssue(epoch, Front(es), id);
      if w.worker.Flushing? { CurrentIsDue(w); }
    }
  }
}
