/** No due job is passed over for ever. */
module ReviewFairness {
  import opened Basics
  import opened Review
  import opened ReviewRuns
  import opened Attempts
  import opened ReviewDrain

  /** The work in the rows issued before row `r`. */
  ghost function OlderWork(s: Store, r: nat): nat {
    Sum(Weights(s.jobs), r)
  }

  ghost function OlderAbandoned(w: World, e: Event, r: nat): set<nat> {
    set id | id in w.db.jobs && id < r && Recovers(w, e, id)
  }

  /** An event does not raise the weight of a row, but a recovery by at most one; and a claim
      lowers that of its row by one. */
  lemma WeightStep(c: Config, w: World, e: Event, id: nat)
    requires RowsOk(c, w) && Enabled(c, w, e) && id < w.db.nextId
    ensures var a, b := Weight(Weights(w.db.jobs), id), Weight(Weights(Apply(c, w, e).db.jobs), id);
            && b <= a + (if Recovers(w, e, id) then 1 else 0)
            && (e.Claim? && e.id == id ==> b + 1 == a)
            && (e.Claim? && e.id != id ==> b == a)
  {
    hide RowsOk, Enabled, Apply;
    if id in Apply(c, w, e).db.jobs {
      if id in w.db.jobs {
        RowAfter(c, w, e, id);
      } else {
        NewRowsAreFresh(c, w, e, id);
      }
    }
    ClaimKeepsRows(c, w, e);
  }

  lemma ClaimKeepsRows(c: Config, w: World, e: Event)
    requires Enabled(c, w, e)
    ensures e.Claim? ==> e.id in w.db.jobs && Apply(c, w, e).db.jobs.Keys == w.db.jobs.Keys
  {
  }

  lemma OlderStep(c: Config, w: World, e: Event, r: nat)
    requires RowsOk(c, w) && Enabled(c, w, e) && r <= w.db.nextId
    ensures OlderWork(Apply(c, w, e).db, r) + (if e.Claim? && e.id < r then 1 else 0) <=
            OlderWork(w.db, r) + |OlderAbandoned(w, e, r)|
  {
    hide RowsOk, Enabled, Apply, Weights;
    var a, b := Weights(w.db.jobs), Weights(Apply(c, w, e).db.jobs);
    forall k: nat | k < r
      ensures Weight(b, k) <= Weight(a, k) + if k in OlderAbandoned(w, e, r) then 1 else 0
      ensures e.Claim? && e.id != k ==> Weight(b, k) == Weight(a, k)
    {
      WeightStep(c, w, e, k);
      assert Recovers(w, e, k) ==> k in OlderAbandoned(w, e, r);
    }
    if e.Claim? && e.id < r {
      WeightStep(c, w, e, e.id);
      SumAfterOneChange(a, b, r, e.id);
    } else {
      SumGrowsAtMost(a, b, r, OlderAbandoned(w, e, r));
    }
  }

  // ---------- Older rows first ----------

  ghost predicate CreationFollowsIds(jobs: map<nat, Job>) {
    forall i, j :: i in jobs && j in jobs && i < j ==> jobs[i].createdAt < jobs[j].createdAt
  }

  /** Every row is created later than all rows before it. */
  ghost predicate StrictCreation(c: Config, es: seq<Event>) {
    es != [] ==>
      && StrictCreation(c, Front(es))
      && (Last(es).Submit? ==>
            forall id :: id in Run(c, Front(es)).db.jobs ==> Run(c, Front(es)).db.jobs[id].createdAt < Last(es).at)
  }

  lemma OrderStep(c: Config, w: World, e: Event)
    requires RowsOk(c, w) && Enabled(c, w, e) && CreationFollowsIds(w.db.jobs)
    requires e.Submit? ==> forall id :: id in w.db.jobs ==> w.db.jobs[id].createdAt < e.at
    ensures CreationFollowsIds(Apply(c, w, e).db.jobs)
  {
    hide RowsOk, Enabled, Apply;
    var jobs, jobs' := w.db.jobs, Apply(c, w, e).db.jobs;
    forall i | i in jobs'
      ensures i in jobs ==> jobs'[i].createdAt == jobs[i].createdAt
      ensures i !in jobs ==> e.Submit? && i == w.db.nextId && jobs'[i].createdAt == e.at
    {
      if i in jobs {
        RowAfter(c, w, e, i);
      } else {
        NewRowsAreFresh(c, w, e, i);
      }
    }
    IdsAreIssued(c, w);
  }

  lemma IdsAreIssued(c: Config, w: World)
    requires RowsOk(c, w)
    ensures forall id :: id in w.db.jobs ==> id < w.db.nextId
  {
  }

  lemma {:induction false} StrictRunsAreOrdered(c: Config, es: seq<Event>)
    requires Valid(c, es) && StrictCreation(c, es)
    ensures CreationFollowsIds(Run(c, es).db.jobs)
  {
    hide Apply, Enabled, Decided, RowsOk;
    if es != [] {
      StrictRunsAreOrdered(c, Front(es));
      RunsKeepInv(c, Front(es));
      OrderStep(c, Run(c, Front(es)), Last(es));
    }
  }

  /** A claim passes over a row that was due when it took another. */
  ghost predicate Passes(w: World, e: Event, r: nat) {
    e.Claim? && e.id != r && r in w.db.jobs && Due(w.db.jobs[r], e.at)
  }

  /** What passes over a row is older. */
  lemma PassingClaimIsOlder(c: Config, w: World, e: Event, r: nat)
    requires Enabled(c, w, e) && CreationFollowsIds(w.db.jobs) && Passes(w, e, r)
    ensures e.id < r
  {
  }

  ghost function PassedOver(c: Config, es: seq<Event>, r: nat): nat {
    if es == [] then 0
    else PassedOver(c, Front(es), r) + if Passes(Run(c, Front(es)), Last(es), r) then 1 else 0
  }

  /** Recoveries of the rows issued before row `r`. */
  ghost function OlderRecoveries(c: Config, es: seq<Event>, r: nat): nat {
    if es == [] then 0 else OlderRecoveries(c, Front(es), r) + |OlderAbandoned(Run(c, Front(es)), Last(es), r)|
  }

  lemma {:induction false} PassingIsPaidFor(c: Config, es: seq<Event>, more: seq<Event>, r: nat)
    requires Valid(c, es + more) && StrictCreation(c, es + more) && r < Run(c, es).db.nextId
    ensures Valid(c, es) && Run(c, es + more).db.nextId >= Run(c, es).db.nextId
    ensures PassedOver(c, es + more, r) - PassedOver(c, es, r) + OlderWork(Run(c, es + more).db, r) <=
            OlderWork(Run(c, es).db, r) + OlderRecoveries(c, es + more, r) - OlderRecoveries(c, es, r)
    decreases |more|
  {
    hide Apply, Enabled, Decided, RowsOk, OlderWork, OlderAbandoned;
    var all := es + more;
    if more == [] {
      assert all == es;
    } else {
      var w, e := Run(c, Front(all)), Last(all);
      assert Front(all) == es + Front(more) && e == Last(more);
      PassingIsPaidFor(c, es, Front(more), r);
      RunsKeepInv(c, Front(all));
      StrictRunsAreOrdered(c, Front(all));
      OlderStep(c, w, e, r);
      IdsNeverDecrease(c, w, e);
      if Passes(w, e, r) {
        PassingClaimIsOlder(c, w, e, r);
      }
    }
  }

  lemma IdsNeverDecrease(c: Config, w: World, e: Event)
    ensures Apply(c, w, e).db.nextId >= w.db.nextId
  {
    hide EvidenceAdded, Sighted;
  }

  /** No job starves: over any run, with new work arriving, the claims that pass over a job while
      it is due number at most the work there was in older jobs and one per recovery of an older
      job since. */
  lemma NoJobStarves(c: Config, es: seq<Event>, more: seq<Event>, r: nat)
    requires Valid(c, es + more) && StrictCreation(c, es + more) && r < Run(c, es).db.nextId
    ensures PassedOver(c, es + more, r) - PassedOver(c, es, r) <=
            OlderWork(Run(c, es).db, r) + OlderRecoveries(c, es + more, r) - OlderRecoveries(c, es, r)
  {
    PassingIsPaidFor(c, es, more, r);
  }
}
