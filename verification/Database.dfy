/** The database object: its tables are fields, its transactions are methods. Each method is
    tied to the function of the table contents that the run theorems are about. */
module Database {
  import opened Basics
  import opened Json
  import opened Evidence
  import opened Settings
  import Review
  import Outbox
  import Teams = TeamsLifecycle

  datatype Submitted = Accepted(id: nat, created: bool) | Conflict

  datatype AuditEvent = AuditEvent(eventType: string, actor: string, payload: Json, expiresAt: int)

  /** How many rows a purge deleted by itself, not counting what went with them. */
  datatype Counts = Counts(evidence: nat, audits: nat, jobs: nat, installations: nat, deliveries: nat)

  datatype Retention = Retention(lastRunAt: int, details: Counts)

  const ACTOR_LIMIT := 128

  /** Exactly these rows are gone; the others are as they were. */
  ghost predicate Cut<V>(before: map<nat, V>, after: map<nat, V>, gone: set<nat>) {
    && (forall id :: id in after <==> id in before && id !in gone)
    && (forall id :: id in after ==> after[id] == before[id])
  }

  /** And of the others those whose job is gone. */
  ghost predicate CutWithJobs(before: map<nat, Review.EvidenceRow>, after: map<nat, Review.EvidenceRow>, gone: set<nat>,
                              jobs: map<nat, Review.Job>)
  {
    && (forall e :: e in after <==> e in before && e !in gone && before[e].jobId in jobs)
    && (forall e :: e in after ==> after[e] == before[e])
  }

  function ExpiredAudits(audits: map<nat, AuditEvent>, now: int): set<nat> {
    set a | a in audits && audits[a].expiresAt < now
  }

  function KeptAudits(audits: map<nat, AuditEvent>, now: int): map<nat, AuditEvent> {
    map a | a in audits && !(audits[a].expiresAt < now) :: audits[a]
  }

  class Database {
    const settings: Settings
    var clock: int
    var jobs: map<nat, Review.Job>
    var evidence: map<nat, Review.EvidenceRow>
    var decisions: map<nat, Review.Decision>
    var findings: map<string, Review.Finding>
    var nextId: nat
    var deliveries: map<nat, Outbox.Delivery>
    var nextDelivery: nat
    var installations: map<nat, Teams.Installation>
    var nextInstallation: nat
    var audits: map<nat, AuditEvent>
    var nextAudit: nat
    var retention: Option<Retention>

    /** The review tables as one value. */
    function Reviews(): Review.Store
      reads this`jobs, this`evidence, this`decisions, this`findings, this`nextId
    {
      Review.Store(jobs, evidence, decisions, findings, nextId)
    }

    /** The installation table as one value. */
    function Destinations(): Teams.Store
      reads this`installations, this`nextInstallation
    {
      Teams.Store(installations, nextInstallation)
    }

    constructor (settings: Settings, epoch: int)
      ensures this.settings == settings && clock == epoch && Reviews() == Review.EMPTY
      ensures deliveries == map[] && nextDelivery == 0 && Destinations() == Teams.Store(map[], 0)
      ensures audits == map[] && nextAudit == 0 && retention == None
    {
      this.settings, clock := settings, epoch;
      jobs, evidence, decisions, findings, nextId := map[], map[], map[], map[], 0;
      deliveries, nextDelivery := map[], 0;
      installations, nextInstallation := map[], 0;
      audits, nextAudit, retention := map[], 0, None;
    }

    /** The time; it never goes back. */
    method UtcNow() returns (now: int)
      modifies this`clock
      ensures now == clock >= old(clock)
    {
      var passed: int :| passed >= 0;
      clock := clock + passed;
      now := clock;
    }

    // ---------- Audit ----------

    /** Adds one row, with the actor clipped, that expires after the retention period. */
    method Audit(eventType: string, actor: string, payload: Json) returns (id: nat)
      modifies this`audits, this`nextAudit, this`clock
      ensures clock >= old(clock) && id == old(nextAudit) && nextAudit == id + 1
      ensures audits == old(audits)[id :=
                AuditEvent(eventType, Clip(actor, 128), payload, clock + settings.auditRetentionDays * 86400)]
    {
      var now := UtcNow();
      id := nextAudit;
      audits := audits[id :=
        AuditEvent(eventType, Clip(actor, ACTOR_LIMIT), payload, now + settings.auditRetentionDays * DAY)];
      nextAudit := id + 1;
    }

    // ---------- Jobs ----------

    /** A known key is compared on every stored column of the request; the job table is left
        unchanged unless a row is added. */
    method CreateJob(key: string, request: Review.Request) returns (r: Submitted)
      modifies this`jobs, this`nextId, this`clock
      ensures clock >= old(clock)
      ensures var stored := request.(source := Clip(request.source, 128));
              if Review.Taken(old(jobs), key) then
                && Reviews() == old(Reviews())
                && exists id :: id in jobs && jobs[id].key == key &&
                     r == if jobs[id].request == stored then Accepted(id, false) else Conflict
              else
                && r == Accepted(old(nextId), true)
                && Reviews() == Review.Created(old(Reviews()), key, stored, settings.jobMaxAttempts, clock)
                && jobs == old(jobs)[r.id := Review.Job(key, stored, Review.Pending, 0, settings.jobMaxAttempts,
                                                        clock, None, None, None, None, clock, clock)]
    {
      var now := UtcNow();
      var stored := request.(source := Clip(request.source, 128));
      if id :| id in jobs && jobs[id].key == key {
        if jobs[id].request != stored {
          return Conflict;
        }
        return Accepted(id, false);
      }
      jobs := jobs[nextId := Review.NewJob(key, stored, settings.jobMaxAttempts, now)];
      r := Accepted(nextId, true);
      nextId := nextId + 1;
    }

    /** A row that a claim may take at this time. */
    ghost predicate Waits(job: Review.Job, now: int) {
      (job.status == Review.Pending || job.status == Review.Retry) && job.availableAt <= now
    }

    /** Claims an oldest due row, and none only when no row is due. */
    method ClaimJob() returns (claimed: Option<nat>)
      modifies this`jobs, this`clock
      ensures clock >= old(clock)
      ensures claimed.None? ==> jobs == old(jobs) && forall id :: id in jobs ==> !Waits(jobs[id], clock)
      ensures claimed.Some? ==>
                && Review.OldestDue(old(jobs), clock, claimed.value)
                && Reviews() == Review.Claimed(old(Reviews()), claimed.value, clock)
      ensures claimed.Some? ==>
                && claimed.value in old(jobs) && Waits(old(jobs)[claimed.value], clock)
                && forall id :: id in old(jobs) && Waits(old(jobs)[id], clock) ==>
                     old(jobs)[claimed.value].createdAt <= old(jobs)[id].createdAt
      ensures claimed.Some? ==>
                var was := old(jobs)[claimed.value];
                jobs == old(jobs)[claimed.value := was.(status := Review.Running, attempts := was.attempts + 1,
                                                        claimedAt := Some(clock), updatedAt := clock)]
    {
      var now := UtcNow();
      if id :| id in jobs && Review.OldestDue(jobs, now, id) {
        var won := GuardedClaim(id, now);
        claimed := if won then Some(id) else None;
      } else {
        forall id | id in jobs && Review.Due(jobs[id], now) ensures false {
          Review.SomeDueRowIsOldest(jobs, now, id);
        }
        claimed := None;
      }
    }

    /** The guarded update: it wins exactly when the row is still claimable. */
    method GuardedClaim(id: nat, now: int) returns (won: bool)
      modifies this`jobs
      ensures won <==>
                id in old(jobs) && (old(jobs)[id].status == Review.Pending || old(jobs)[id].status == Review.Retry)
      ensures Reviews() == Review.Claimed(old(Reviews()), id, now)
    {
      won := id in jobs && Review.Claimable(jobs[id]);
      if won {
        jobs := jobs[id := jobs[id].(status := Review.Running, attempts := jobs[id].attempts + 1,
                                     claimedAt := Some(now), updatedAt := now)];
      }
    }

    method RecoverAbandonedJobs() returns (recovered: nat)
      modifies this`jobs, this`clock
      ensures clock >= old(clock) && Reviews() == Review.Recovered(old(Reviews()), clock)
      ensures recovered == |set id | id in old(jobs) && Review.Abandoned(old(jobs)[id], clock)|
      ensures forall id :: id in jobs <==> id in old(jobs)
      ensures forall id :: id in jobs ==>
                var was := old(jobs)[id];
                jobs[id] == if was.status == Review.Running && was.claimedAt.Some? && was.claimedAt.value < clock - 900
                            then was.(status := Review.Retry, availableAt := clock, updatedAt := clock) else was
    {
      var now := UtcNow();
      var hit := set id | id in jobs && Review.Abandoned(jobs[id], now);
      jobs := map id | id in jobs ::
        if id in hit then jobs[id].(status := Review.Retry, availableAt := now, updatedAt := now) else jobs[id];
      recovered := |hit|;
    }

    method RetryJob(id: nat, attempts: nat, maxAttempts: nat, error: Failure, delay: nat)
      modifies this`jobs, this`clock
      ensures clock >= old(clock)
      ensures Reviews() == Review.Retried(old(Reviews()), id, attempts, maxAttempts, error, delay, clock)
      ensures id in old(jobs) ==>
                var was := old(jobs)[id];
                jobs == old(jobs)[id :=
                  if attempts < maxAttempts
                  then was.(status := Review.Retry, error := Some(error), availableAt := clock + delay,
                            completedAt := None, updatedAt := clock)
                  else was.(status := Review.Failed, error := Some(error), availableAt := clock + delay,
                            completedAt := Some(clock), updatedAt := clock)]
    {
      var terminal := attempts >= maxAttempts;
      var now := UtcNow();
      if id in jobs {
        jobs := jobs[id := jobs[id].(
          status := if terminal then Review.Failed else Review.Retry, error := Some(error),
          availableAt := now + delay, completedAt := if terminal then Some(now) else None, updatedAt := now)];
      }
    }

    /** The rows from `first` on hold these items. */
    ghost predicate StoredFrom(first: nat, id: nat, items: seq<Item>, expires: int)
      reads this`evidence
    {
      forall e :: first <= e < first + |items| ==>
        e in evidence && Review.Stores(evidence[e], id, items[e - first], expires)
    }

    /** Stores one row per item. */
    method AddEvidence(id: nat, items: seq<Item>, expires: int)
      modifies this`evidence
      ensures evidence == Review.EvidenceAdded(old(evidence), nextId, id, items, expires)
      ensures StoredFrom(nextId, id, items, expires)
    {
      hide Review.EvidenceRowOf, Review.Stores;
      for i := 0 to |items|
        invariant evidence == Review.EvidenceAdded(old(evidence), nextId, id, items[..i], expires)
      {
        assert items[..i + 1][..i] == items[..i];
        evidence := evidence[nextId + i := Review.EvidenceRowOf(id, items[i], expires)];
      }
      assert items[..|items|] == items;
      forall e | nextId <= e < nextId + |items|
        ensures e in evidence && Review.Stores(evidence[e], id, items[e - nextId], expires)
      {
        Review.EvidenceIsStored(old(evidence), nextId, id, items, expires, e - nextId);
      }
    }

    /** One transaction: the evidence rows one by one, the decision, the finding, the job. A
        missing job row makes the foreign keys reject it. */
    method CompleteJob(id: nat, verdict: Review.Verdict, model: Review.Model, items: seq<Item>, findingKey: string)
      returns (decision: Option<nat>)
      modifies this`jobs, this`evidence, this`decisions, this`findings, this`nextId, this`clock
      ensures clock >= old(clock)
      ensures decision.None? <==> id !in old(jobs)
      ensures decision.Some? ==>
                && decision.value == old(nextId) + |items|
                && decisions == old(decisions)[decision.value := Review.Decision(id, verdict, model)]
                && jobs == old(jobs)[id := old(jobs)[id].(status := Review.Succeeded,
                     result := Some(Review.Outcome(verdict, findingKey, decision.value)), error := None,
                     completedAt := Some(clock), updatedAt := clock)]
                && findings == old(findings)[findingKey :=
                     if findingKey !in old(findings) then Review.Finding(decision.value, 1, clock, clock)
                     else Review.Finding(decision.value, old(findings)[findingKey].occurrences + 1,
                                         old(findings)[findingKey].firstSeenAt, clock)]
                && StoredFrom(old(nextId), id, items, clock + settings.evidenceRetentionDays * 86400)
      ensures Reviews() == Review.Completed(old(Reviews()), id, verdict, model, items, findingKey, clock,
                                            clock + settings.evidenceRetentionDays * DAY)
    {
      hide Review.EvidenceAdded, Review.Stores;
      var now := UtcNow();
      if id !in jobs {
        return None;
      }
      var expires := now + settings.evidenceRetentionDays * DAY;
      AddEvidence(id, items, expires);
      var decisionId := nextId + |items|;
      decisions := decisions[decisionId := Review.Decision(id, verdict, model)];
      if findingKey in findings {
        var seen := findings[findingKey];
        findings := findings[findingKey :=
          seen.(decisionId := decisionId, occurrences := seen.occurrences + 1, lastSeenAt := now)];
      } else {
        findings := findings[findingKey := Review.Finding(decisionId, 1, now, now)];
      }
      jobs := jobs[id := jobs[id].(status := Review.Succeeded,
                                   result := Some(Review.Outcome(verdict, findingKey, decisionId)),
                                   error := None, completedAt := Some(now), updatedAt := now)];
      nextId := decisionId + 1;
      decision := Some(decisionId);
    }

    // ---------- Deliveries ----------

    /** Adds one row, due at once, with ten attempts. */
    method Enqueue(channel: Outbox.Channel, payload: Json, target: Option<nat>) returns (id: nat)
      modifies this`deliveries, this`nextDelivery, this`clock
      ensures clock >= old(clock) && id == old(nextDelivery) && nextDelivery == id + 1
      ensures deliveries == old(deliveries)[id := Outbox.NewDelivery(channel, target, payload, clock)]
      ensures deliveries == old(deliveries)[id :=
                Outbox.Delivery(channel, target, payload, Outbox.Pending, 0, 10, clock, "", clock, clock)]
    {
      var now := UtcNow();
      id := nextDelivery;
      deliveries := deliveries[id := Outbox.NewDelivery(channel, target, payload, now)];
      nextDelivery := id + 1;
    }

    method OldestDelivery(ids: set<nat>) returns (oldest: nat)
      requires ids != {} && forall id :: id in ids ==> id in deliveries
      ensures oldest in ids
      ensures forall id :: id in ids ==> deliveries[oldest].createdAt <= deliveries[id].createdAt
    {
      ghost var rows := deliveries;
      ghost var least := LeastOf(ids, id => if id in rows then rows[id].createdAt else 0);
      oldest :| oldest in ids && forall id :: id in ids ==> deliveries[oldest].createdAt <= deliveries[id].createdAt;
    }

    /** A row that a flush may take at this time. */
    ghost predicate Ready(row: Outbox.Delivery, now: int) {
      (row.status == Outbox.Pending || row.status == Outbox.Retry) && row.availableAt <= now
    }

    /** The oldest due rows, as many as fit the limit. */
    method PendingDeliveries(limit: nat) returns (batch: seq<nat>)
      modifies this`clock
      ensures clock >= old(clock) && Outbox.IsBatch(deliveries, clock, limit, batch)
      ensures |batch| <= limit && forall id :: id in batch ==> id in deliveries && Ready(deliveries[id], clock)
      ensures forall id :: id in deliveries && Ready(deliveries[id], clock) && id !in batch ==>
                |batch| == limit && forall b :: b in batch ==> deliveries[b].createdAt <= deliveries[id].createdAt
    {
      var now := UtcNow();
      batch := OldestDeliveries(now, limit);
      BatchIsReady(now, limit, batch);
    }

    lemma BatchIsReady(now: int, limit: nat, batch: seq<nat>)
      requires Outbox.IsBatch(deliveries, now, limit, batch)
      ensures |batch| <= limit && forall id :: id in batch ==> id in deliveries && Ready(deliveries[id], now)
      ensures forall id :: id in deliveries && Ready(deliveries[id], now) && id !in batch ==>
                |batch| == limit && forall b :: b in batch ==> deliveries[b].createdAt <= deliveries[id].createdAt
    {
    }

    method OldestDeliveries(now: int, limit: nat) returns (batch: seq<nat>)
      ensures Outbox.IsBatch(deliveries, now, limit, batch)
    {
      batch := [];
      var rest := set id | id in deliveries && Outbox.Due(deliveries[id], now);
      while |batch| < limit && rest != {}
        invariant |batch| <= limit
        invariant forall id :: id in rest <==> id in deliveries && Outbox.Due(deliveries[id], now) && id !in batch
        invariant forall i :: 0 <= i < |batch| ==> batch[i] in deliveries && Outbox.Due(deliveries[batch[i]], now)
        invariant forall i, j :: 0 <= i < j < |batch| ==>
                    batch[i] != batch[j] && deliveries[batch[i]].createdAt <= deliveries[batch[j]].createdAt
        invariant forall i, id :: 0 <= i < |batch| && id in rest ==>
                    deliveries[batch[i]].createdAt <= deliveries[id].createdAt
        decreases rest
      {
        var id := OldestDelivery(rest);
        batch := batch + [id];
        rest := rest - {id};
      }
    }

    method DeliverySucceeded(id: nat)
      modifies this`deliveries, this`clock
      ensures clock >= old(clock)
      ensures deliveries == if id in old(deliveries)
                            then old(deliveries)[id := Outbox.SentRow(old(deliveries)[id], clock)] else old(deliveries)
      ensures id in old(deliveries) ==>
                var was := old(deliveries)[id];
                deliveries[id] == was.(status := Outbox.Sent, attempts := was.attempts + 1, lastError := "",
                                       updatedAt := clock)
    {
      var now := UtcNow();
      if id in deliveries {
        var row := deliveries[id];
        deliveries := deliveries[id :=
          row.(status := Outbox.Sent, attempts := row.attempts + 1, lastError := "", updatedAt := now)];
      }
    }

    method DeliveryFailed(id: nat, read: Outbox.Delivery, error: string)
      modifies this`deliveries, this`clock
      ensures clock >= old(clock)
      ensures deliveries == if id in old(deliveries)
                            then old(deliveries)[id := Outbox.FailedRow(old(deliveries)[id], read, error, clock)]
                            else old(deliveries)
      ensures id in old(deliveries) ==>
                var n := read.attempts + 1;
                deliveries[id] == old(deliveries)[id].(
                  status := if n < read.maxAttempts then Outbox.Retry else Outbox.Failed, attempts := n,
                  lastError := Clip(error, 4000), updatedAt := clock,
                  availableAt := clock + [1, 2, 4, 8, 16, 32, 64, 128, 256, 512, 1024][Min(n, 10)])
    {
      Outbox.DelayTable(read.attempts + 1);
      var attempts := read.attempts + 1;
      var terminal := attempts >= read.maxAttempts;
      var delay := Min(3600, Pow2(Min(attempts, 10)));
      var now := UtcNow();
      if id in deliveries {
        deliveries := deliveries[id := deliveries[id].(
          status := if terminal then Outbox.Failed else Outbox.Retry, attempts := attempts,
          lastError := Clip(error, Outbox.ERROR_LIMIT), availableAt := now + delay, updatedAt := now)];
      }
    }

    // ---------- Installations ----------

    method UpsertInstallation(a: Teams.Activity) returns (id: nat)
      requires Teams.Inv(Destinations())
      modifies this`installations, this`nextInstallation, this`clock
      ensures clock >= old(clock) && Destinations() == Teams.Upserted(old(Destinations()), a, clock)
      ensures id in installations && Teams.Refreshed(old(Destinations()), installations[id], a, clock)
      ensures forall i :: i in installations && i != id ==>
                i in old(installations) && installations[i] == old(installations)[i]
    {
      var now := UtcNow();
      if known :| known in installations && installations[known].at == a.at {
        var row := installations[known];
        ghost var updated := installations[known := Teams.SeenRow(row, a, now)];
        assert updated == map i | i in installations ::
                 if installations[i].at == a.at then Teams.SeenRow(installations[i], a, now) else installations[i];
        installations := installations[known := row.(
          serviceUrl := a.serviceUrl, scope := if a.scope != "" then a.scope else "personal",
          reference := a.reference, active := true, lastSeenAt := now)];
        id := known;
      } else {
        id := nextInstallation;
        installations := installations[id := Teams.NewRow(a, now)];
        nextInstallation := id + 1;
      }
    }

    method DeactivateInstallation(d: Teams.Destination) returns (changed: bool)
      modifies this`installations, this`clock
      ensures clock >= old(clock) && Destinations() == Teams.Deactivated(old(Destinations()), d, clock)
      ensures changed <==> exists id :: id in old(installations) && old(installations)[id].at == d
      ensures forall id :: id in installations <==> id in old(installations)
      ensures forall id :: id in installations ==>
                installations[id] == if old(installations)[id].at != d then old(installations)[id] else
                  old(installations)[id].(active := false, enabled := false, lastSeenAt := clock)
    {
      var now := UtcNow();
      changed := exists id :: id in installations && installations[id].at == d;
      installations := map id | id in installations ::
        if installations[id].at == d then installations[id].(active := false, enabled := false, lastSeenAt := now)
        else installations[id];
    }

    method SetInstallationEnabled(id: nat, enabled: bool) returns (done: bool)
      modifies this`installations, this`clock
      ensures clock >= old(clock) && Destinations() == Teams.Toggled(old(Destinations()), id, enabled, clock)
      ensures done <==> id in old(installations) && (enabled ==> old(installations)[id].active)
      ensures installations == if !done then old(installations) else
                old(installations)[id := old(installations)[id].(enabled := enabled, lastSeenAt := clock)]
    {
      var now := UtcNow();
      if id !in installations || (enabled && !installations[id].active) {
        return false;
      }
      installations := installations[id := installations[id].(enabled := enabled, lastSeenAt := now)];
      done := true;
    }

    /** The destinations that are enabled and active. */
    function LiveDestinations(): set<nat>
      reads this`installations
    {
      set id | id in installations && installations[id].enabled && installations[id].active
    }

    /** Different destinations, in the order of their discovery. */
    ghost predicate ByDiscovery(ids: seq<nat>)
      reads this`installations
    {
      forall i, j :: 0 <= i < j < |ids| ==>
        && ids[i] != ids[j] && ids[i] in installations && ids[j] in installations
        && installations[ids[i]].discoveredAt <= installations[ids[j]].discoveredAt
    }

    method OldestDestination(ids: set<nat>) returns (oldest: nat)
      requires ids != {} && forall id :: id in ids ==> id in installations
      ensures oldest in ids
      ensures forall id :: id in ids ==> installations[oldest].discoveredAt <= installations[id].discoveredAt
    {
      ghost var rows := installations;
      ghost var least := LeastOf(ids, id => if id in rows then rows[id].discoveredAt else 0);
      oldest :| oldest in ids &&
        forall id :: id in ids ==> installations[oldest].discoveredAt <= installations[id].discoveredAt;
    }

    /** The live destinations, each once, in the order of their discovery. */
    method EnabledInstallations() returns (ids: seq<nat>)
      ensures forall id :: id in ids <==> id in installations && installations[id].enabled && installations[id].active
      ensures ByDiscovery(ids)
      ensures |ids| == |LiveDestinations()| && forall id :: id in ids <==> id in LiveDestinations()
    {
      ids := Discovered(LiveDestinations());
    }

    method Discovered(some: set<nat>) returns (ids: seq<nat>)
      requires forall id :: id in some ==> id in installations
      ensures ByDiscovery(ids)
      ensures |ids| == |some| && forall id :: id in ids <==> id in some
    {
      ids := [];
      var rest := some;
      while rest != {}
        invariant |ids| + |rest| == |some|
        invariant forall id :: id in rest || id in ids <==> id in some
        invariant forall id :: id in ids ==> id !in rest
        invariant ByDiscovery(ids)
        invariant forall i, id :: 0 <= i < |ids| && id in rest ==>
                    ids[i] in installations && installations[ids[i]].discoveredAt <= installations[id].discoveredAt
        decreases rest
      {
        var id := OldestDestination(rest);
        ids := ids + [id];
        rest := rest - {id};
      }
    }

    // ---------- Retention ----------

    /** Deletes expired evidence, then outlived jobs with everything hanging on them. */
    method PurgeReviews(now: int, cutoff: int) returns (expired: nat, outlived: nat)
      modifies this`jobs, this`evidence, this`decisions, this`findings
      ensures Reviews() == Review.Purged(old(Reviews()), now, cutoff)
      ensures expired == |Review.ExpiredEvidence(old(evidence), now)|
      ensures outlived == |Review.OutlivedJobs(old(jobs), cutoff)|
      ensures Cut(old(jobs), jobs, Review.OutlivedJobs(old(jobs), cutoff))
      ensures CutWithJobs(old(evidence), evidence, Review.ExpiredEvidence(old(evidence), now), jobs)
    {
      var es, js, ds, fs := evidence, jobs, decisions, findings;
      expired := |Review.ExpiredEvidence(es, now)|;
      es := map e | e in es && !(es[e].expiresAt < now) :: es[e];
      outlived := |Review.OutlivedJobs(js, cutoff)|;
      js := map id | id in js && !Review.Outlived(js[id], cutoff) :: js[id];
      es := map e | e in es && es[e].jobId in js :: es[e];
      ds := map d | d in ds && ds[d].jobId in js :: ds[d];
      fs := map k | k in fs && fs[k].decisionId in ds :: fs[k];
      evidence, jobs, decisions, findings := es, js, ds, fs;
    }

    /** What a purge at this time deletes by itself, from the tables as they were. */
    twostate predicate Counted(counts: Counts, now: int)
      reads this
    {
      && counts.evidence == |Review.ExpiredEvidence(old(evidence), now)|
      && counts.audits == |ExpiredAudits(old(audits), now)|
      && counts.jobs == |Review.OutlivedJobs(old(jobs), now - settings.jobRetentionDays * 86400)|
      && counts.installations == |Teams.GoneRows(old(installations), now - settings.teamsRetentionDays * 86400)|
      && counts.deliveries == |Outbox.ExpiredRows(old(deliveries), now - settings.auditRetentionDays * 86400)|
    }

    /** And what it leaves: all but those rows, evidence without its job excepted. */
    twostate predicate Left(now: int)
      reads this
    {
      && Cut(old(jobs), jobs, Review.OutlivedJobs(old(jobs), now - settings.jobRetentionDays * 86400))
      && CutWithJobs(old(evidence), evidence, Review.ExpiredEvidence(old(evidence), now), jobs)
      && Cut(old(audits), audits, ExpiredAudits(old(audits), now))
      && Cut(old(installations), installations,
             Teams.GoneRows(old(installations), now - settings.teamsRetentionDays * 86400))
      && Cut(old(deliveries), deliveries,
             Outbox.ExpiredRows(old(deliveries), now - settings.auditRetentionDays * 86400))
    }

    /** Applies the retention periods at one reading of the clock, and keeps the time and the
        counts of it. */
    method Purge() returns (counts: Counts)
      modifies this
      ensures clock >= old(clock)
      ensures Reviews() == Review.Purged(old(Reviews()), clock, clock - settings.jobRetentionDays * DAY)
      ensures Destinations() == Teams.Purged(old(Destinations()), clock - settings.teamsRetentionDays * DAY)
      ensures deliveries == Outbox.KeptRows(old(deliveries), clock - settings.auditRetentionDays * DAY)
      ensures audits == KeptAudits(old(audits), clock)
      ensures nextDelivery == old(nextDelivery) && nextAudit == old(nextAudit)
      ensures retention == Some(Retention(clock, counts)) && Counted(counts, clock) && Left(clock)
    {
      hide Review.Purged, Teams.Purged, Outbox.KeptRows, KeptAudits, ExpiredAudits, Review.ExpiredEvidence,
        Review.OutlivedJobs, Teams.GoneRows, Outbox.ExpiredRows, Cut, CutWithJobs;
      var now := UtcNow();
      var expired, outlived := PurgeReviews(now, now - settings.jobRetentionDays * DAY);
      var audited, gone, delivered := PurgeOthers(now);
      counts := Counts(expired, audited, outlived, gone, delivered);
      retention := Some(Retention(now, counts));
    }

    /** Deletes the audit events, installations and deliveries whose time is over. */
    method PurgeOthers(now: int) returns (audited: nat, gone: nat, delivered: nat)
      modifies this`audits, this`installations, this`deliveries
      ensures audits == KeptAudits(old(audits), now) && audited == |ExpiredAudits(old(audits), now)|
      ensures Destinations() == Teams.Purged(old(Destinations()), now - settings.teamsRetentionDays * DAY)
      ensures gone == |Teams.GoneRows(old(installations), now - settings.teamsRetentionDays * DAY)|
      ensures deliveries == Outbox.KeptRows(old(deliveries), now - settings.auditRetentionDays * DAY)
      ensures delivered == |Outbox.ExpiredRows(old(deliveries), now - settings.auditRetentionDays * DAY)|
      ensures Cut(old(audits), audits, ExpiredAudits(old(audits), now))
      ensures Cut(old(installations), installations,
                  Teams.GoneRows(old(installations), now - settings.teamsRetentionDays * DAY))
      ensures Cut(old(deliveries), deliveries,
                  Outbox.ExpiredRows(old(deliveries), now - settings.auditRetentionDays * DAY))
    {
      hide Teams.Purged, Outbox.KeptRows, KeptAudits, ExpiredAudits, Teams.GoneRows, Outbox.ExpiredRows, Cut;
      audited := PurgeAudits(now);
      gone := PurgeInstallations(now - settings.teamsRetentionDays * DAY);
      delivered := PurgeDeliveries(now - settings.auditRetentionDays * DAY);
    }

    method PurgeAudits(now: int) returns (deleted: nat)
      modifies this`audits
      ensures audits == KeptAudits(old(audits), now)
      ensures deleted == |ExpiredAudits(old(audits), now)|
      ensures Cut(old(audits), audits, ExpiredAudits(old(audits), now))
    {
      deleted := |ExpiredAudits(audits, now)|;
      audits := KeptAudits(audits, now);
    }

    method PurgeInstallations(cutoff: int) returns (deleted: nat)
      modifies this`installations
      ensures Destinations() == Teams.Purged(old(Destinations()), cutoff)
      ensures deleted == |Teams.GoneRows(old(installations), cutoff)|
      ensures Cut(old(installations), installations, Teams.GoneRows(old(installations), cutoff))
    {
      var rows := installations;
      deleted := |Teams.GoneRows(rows, cutoff)|;
      installations := map id | id in rows && !Teams.Gone(rows[id], cutoff) :: rows[id];
    }

    method PurgeDeliveries(cutoff: int) returns (deleted: nat)
      modifies this`deliveries
      ensures deliveries == Outbox.KeptRows(old(deliveries), cutoff)
      ensures deleted == |Outbox.ExpiredRows(old(deliveries), cutoff)|
      ensures Cut(old(deliveries), deliveries, Outbox.ExpiredRows(old(deliveries), cutoff))
    {
      var rows := deliveries;
      deleted := |Outbox.ExpiredRows(rows, cutoff)|;
      deliveries := map id | id in rows && !Outbox.Expired(rows[id], cutoff) :: rows[id];
    }
  }
}
