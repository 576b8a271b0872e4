/** No due row is passed over for ever. */
module OutboxFairness {
  import opened Outbox
  import opened OutboxRuns
  import opened OutboxDrain

  /** Row `r` was due when the batch was read, and was left out of it. */
  ghost predicate Skipped(worker: Worker, r: nat) {
    worker.Flushing? && r in worker.read && Due(worker.read[r], worker.since) && r !in worker.batch
  }

  ghost predicate Completes(w: World, e: Event) {
    (e.Ack? || e.Fail?) && w.worker.Flushing? && w.worker.done + 1 == |w.worker.batch|
  }

  /** Flushes of the run that went through and passed over row `r`. */
  ghost function PassedOver(epoch: int, es: seq<Event>, r: nat): nat {
    if es == [] then 0
    else
      var w := Run(epoch, Front(es));
      PassedOver(epoch, Front(es), r) + if Completes(w, Last(es)) && Skipped(w.worker, r) then 1 else 0
  }

  /** Every row is created later than all rows before it. */
  ghost predicate StrictCreation(epoch: int, es: seq<Event>) {
    es != [] ==>
      && StrictCreation(epoch, Front(es))
      && (Last(es).Enqueue? ==>
            forall id :: id in Run(epoch, Front(es)).rows ==> Run(epoch, Front(es)).rows[id].createdAt < Last(es).at)
  }

  ghost predicate CreationFollowsIds(rows: map<nat, Delivery>) {
    forall i, j :: i in rows && j in rows && i < j ==> rows[i].createdAt < rows[j].createdAt
  }

  ghost predicate Ordered(w: World) {
    CreationFollowsIds(w.rows) && (w.worker.Flushing? ==> CreationFollowsIds(w.worker.read))
  }

  lemma {:induction false} StrictRunsAreOrdered(epoch: int, es: seq<Event>)
    requires Valid(epoch, es) && StrictCreation(epoch, es)
    ensures Ordered(Run(epoch, es))
  {
    if es != [] {
      StrictRunsAreOrdered(epoch, Front(es));
      RunsKeepInv(epoch, Front(es));
      OrderedStep(Run(epoch, Front(es)), Last(es));
    }
  }

  lemma OrderedStep(w: World, e: Event)
    requires Inv(w) && Enabled(w, e) && Ordered(w)
    requires e.Enqueue? ==> forall id :: id in w.rows ==> w.rows[id].createdAt < e.at
    ensures Ordered(Apply(w, e))
  {
  }

  /** A flush that passes over a row is full, and all of it is older than the row. */
  lemma PassingFlushIsFull(w: World, r: nat)
    requires Inv(w) && Ordered(w) && Skipped(w.worker, r)
    ensures |w.worker.batch| == BATCH && Current(w.worker) < r
  {
    CurrentIsDue(w);
    var read, b := w.worker.read, Current(w.worker);
    assert w.worker.batch[w.worker.done] == b && b in w.worker.batch;
    assert read[b].createdAt <= read[r].createdAt;
  }

  /** Attempts a flush in progress has made at the expense of row `r`. */
  ghost function InFlight(w: World, r: nat): nat {
    if Skipped(w.worker, r) then w.worker.done else 0
  }

  lemma SkipStep(w: World, e: Event, r: nat)
    requires Inv(w) && Ordered(w) && Enabled(w, e) && r < w.nextId
    ensures var passed := if Completes(w, e) && Skipped(w.worker, r) then 1 else 0;
            BATCH * passed + InFlight(Apply(w, e), r) + Ahead(Apply(w, e).rows, r) <=
            InFlight(w, r) + Ahead(w.rows, r)
  {
    if e.Ack? || e.Fail? {
      CurrentIsDue(w);
      AttemptSpends(w, e, r);
      if Skipped(w.worker, r) {
        PassingFlushIsFull(w, r);
      }
    } else {
      OthersSpendNothing(w, e, r);
    }
  }

  lemma {:induction false} PassingIsPaidFor(epoch: int, es: seq<Event>, more: seq<Event>, r: nat)
    requires Valid(epoch, es + more) && StrictCreation(epoch, es + more) && r < Run(epoch, es).nextId
    ensures Valid(epoch, es) && Run(epoch, es + more).nextId >= Run(epoch, es).nextId
    ensures BATCH * (PassedOver(epoch, es + more, r) - PassedOver(epoch, es, r))
            + InFlight(Run(epoch, es + more), r) + Ahead(Run(epoch, es + more).rows, r) <=
            InFlight(Run(epoch, es), r) + Ahead(Run(epoch, es).rows, r)
    decreases |more|
  {
    var all := es + more;
    if more == [] {
      assert all == es;
    } else {
      assert Front(all) == es + Front(more) && Last(all) == Last(more);
      PassingIsPaidFor(epoch, es, Front(more), r);
      RunsKeepInv(epoch, Front(all));
      StrictRunsAreOrdered(epoch, Front(all));
      SkipStep(Run(epoch, Front(all)), Last(all), r);
    }
  }

  /** No row starves: from any moment between flushes on, the completed flushes in which a row
      is due and passed over number at most a 25th of the attempts the older rows had left. */
  lemma NoRowStarves(epoch: int, es: seq<Event>, more: seq<Event>, r: nat)
    requires Valid(epoch, es + more) && StrictCreation(epoch, es + more)
    requires r in Run(epoch, es).rows && !Run(epoch, es).worker.Flushing?
    ensures PassedOver(epoch, es + more, r) - PassedOver(epoch, es, r) <= Ahead(Run(epoch, es).rows, r) / 25
  {
    PrefixIsValid(epoch, es, more);
    RunsKeepInv(epoch, es);
    PassingIsPaidFor(epoch, es, more, r);
  }

  lemma {:induction false} PrefixIsValid(epoch: int, es: seq<Event>, more: seq<Event>)
    requires Valid(epoch, es + more)
    ensures Valid(epoch, es)
    decreases |more|
  {
    if more == [] {
      assert es + more == es;
    } else {
      assert Front(es + more) == es + Front(more);
      PrefixIsValid(epoch, es, Front(more));
    }
  }
}
