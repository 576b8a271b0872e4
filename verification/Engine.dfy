/** The engine: submission, one round of review, the flush of the outbox, retention, and the
    worker loop. Ghost logs record the transactions as events; the class invariant says that
    each log is a run, so every theorem about runs holds of the engine at any time. */
module Engine {
  import opened Basics
  import opened Json
  import opened Evidence
  import opened Settings
  import opened Database
  import opened Gateway
  import Review
  import ReviewRuns
  import ReviewDrain
  import Outbox
  import OutboxRuns
  import Teams = TeamsLifecycle

  datatype ReviewRequest = ReviewRequest(selectorType: string, selector: Json, source: string,
                                         summary: map<string, Json>, limit: nat)

  /** What the model process gives back; a crash of the worker gives back nothing. */
  datatype Reply = Replied(verdict: Review.Verdict, model: Review.Model) | ReplyFailed(error: Failure)

  datatype Round =
    | NothingDue
    | Succeeded(id: nat, decision: nat, model: Review.Model)
    | NotSucceeded(id: nat, error: Failure)

  /** What the API may be asked while the worker is at work. */
  datatype Action =
    | Submits(key: string, request: ReviewRequest, actor: string)
    | Receives(activity: Teams.Activity)
    | Switches(id: nat, enabled: bool, actor: string)

  /** Where the worker may crash in a pass: with a claim in hand, after its commit or retry and
      some of the cards that announce it, or after some turns of the flush, perhaps with a call
      made. */
  datatype Moment = AfterClaim | Announcing(cards: nat) | DuringFlush(turns: nat, calling: bool)

  /** What a flush meets: the outcome of each turn's call, and what the API is asked before the
      turn and while the call is out. */
  datatype Traffic = Traffic(outcome: nat -> Option<string>, before: nat -> seq<Action>, during: nat -> seq<Action>)

  /** A card that was sent: where, and the history of destinations up to then. */
  datatype SentCard = SentCard(at: Teams.Destination, words: seq<Teams.Event>)

  /** Every card went to a destination whose latest word, at the time, was an administrator's
      enable. */
  ghost predicate Welcome(allowed: set<string>, cards: seq<SentCard>, log: seq<Teams.Event>) {
    forall i :: 0 <= i < |cards| ==>
      cards[i].words <= log && Teams.LastWordIsEnable(allowed, cards[i].words, cards[i].at)
  }

  lemma WelcomeGrows(allowed: set<string>, cards: seq<SentCard>, log: seq<Teams.Event>, longer: seq<Teams.Event>)
    requires Welcome(allowed, cards, log) && log <= longer
    ensures Welcome(allowed, cards, longer)
  {
    hide Teams.LastWordIsEnable;
    forall i | 0 <= i < |cards| ensures cards[i].words <= longer {
      assert cards[i].words <= log;
    }
  }

  /** The count a flush keeps, and what became of each turn. */
  datatype Tally = Tally(sent: nat, failed: nat, results: seq<bool>, calls: seq<nat>) {
    function Add(id: nat, ok: bool, called: bool): Tally {
      Tally(if ok then sent + 1 else sent, if ok then failed else failed + 1, results + [ok],
            if called then calls + [id] else calls)
    }
  }

  function Trues(flags: seq<bool>): nat {
    if flags == [] then 0 else Trues(flags[..|flags| - 1]) + if flags[|flags| - 1] then 1 else 0
  }

  /** The request as a job stores it. */
  function Stored(s: Settings, rt: Runtime, r: ReviewRequest): Review.Request {
    Review.Request(r.selectorType, r.selector, Clip(r.source, 128),
                   Redact(Obj(r.summary), s.redactionKeys, rt.lower), Min(r.limit, s.promptMaxRows))
  }

  /** The request against its stored form: the source within 128 characters, the smaller of the
      two limits, the summary masked at every listed key and nowhere else. */
  ghost predicate StoredAs(stored: Review.Request, s: Settings, rt: Runtime, r: ReviewRequest) {
    && stored.selectorType == r.selectorType && stored.selector == r.selector
    && stored.source == (if |r.source| <= 128 then r.source else r.source[..128])
    && stored.rowLimit == (if r.limit <= s.promptMaxRows then r.limit else s.promptMaxRows)
    && Masks(stored.summary, Obj(r.summary), s.redactionKeys, rt.lower)
  }

  lemma StoredForm(s: Settings, rt: Runtime, r: ReviewRequest)
    ensures StoredAs(Stored(s, rt, r), s, rt, r)
    ensures Stored(s, rt, r).rowLimit <= s.promptMaxRows && |Stored(s, rt, r).source| <= 128
  {
    hide Redact;
    RedactionMasks(Obj(r.summary), s.redactionKeys, rt.lower);
  }

  function SummaryOf(request: Review.Request): map<string, Json> {
    if request.summary.Obj? then request.summary.fields else map[]
  }

  /** The run configuration the settings amount to. */
  function ConfigOf(s: Settings, epoch: int): ReviewRuns.Config {
    ReviewRuns.Config(s.jobMaxAttempts, s.promptMaxRows, s.evidenceRetentionDays * DAY, epoch)
  }

  /** A review log that leads to this store and worker by this time. */
  ghost predicate ReviewLog(c: ReviewRuns.Config, log: seq<ReviewRuns.Event>, store: Review.Store,
                            worker: ReviewRuns.Worker, clock: int) {
    && ReviewRuns.Valid(c, log)
    && var w := ReviewRuns.Run(c, log);
       w.db == store && w.worker == worker && w.clock <= clock
  }

  ghost predicate OutboxLog(epoch: int, log: seq<OutboxRuns.Event>, rows: map<nat, Outbox.Delivery>, next: nat,
                            worker: OutboxRuns.Worker, clock: int) {
    && OutboxRuns.Valid(epoch, log)
    && var w := OutboxRuns.Run(epoch, log);
       w.rows == rows && w.nextId == next && w.worker == worker && w.clock <= clock
  }

  lemma ReviewLogGrows(c: ReviewRuns.Config, log: seq<ReviewRuns.Event>, e: ReviewRuns.Event, store: Review.Store,
                       worker: ReviewRuns.Worker, clock: int)
    requires ReviewLog(c, log, store, worker, clock) && clock <= e.at
    requires ReviewRuns.Enabled(c, ReviewRuns.World(store, worker, clock), e)
    ensures ReviewLog(c, log + [e], ReviewRuns.ApplyToStore(c, store, worker, e),
                      ReviewRuns.ApplyToWorker(store, worker, e), e.at)
  {
    ReviewRuns.OneMore(c, log, e);
  }

  lemma OutboxLogGrows(epoch: int, log: seq<OutboxRuns.Event>, e: OutboxRuns.Event, rows: map<nat, Outbox.Delivery>,
                       next: nat, worker: OutboxRuns.Worker, clock: int)
    requires OutboxLog(epoch, log, rows, next, worker, clock) && clock <= e.at
    requires OutboxRuns.Enabled(OutboxRuns.World(rows, next, worker, clock), e)
    ensures var w := OutboxRuns.Run(epoch, log);
            var w' := OutboxRuns.Apply(w, e);
            OutboxLog(epoch, log + [e], w'.rows, w'.nextId, w'.worker, Max(w'.clock, e.at))
  {
    OutboxRuns.OneMore(epoch, log, e);
  }

  /** A review log that has grown by so many claims and purges. */
  ghost predicate Counted(log: seq<ReviewRuns.Event>, before: seq<ReviewRuns.Event>, claims: nat, purges: nat) {
    && ReviewDrain.Claims(log) == ReviewDrain.Claims(before) + claims
    && ReviewDrain.Purges(log) == ReviewDrain.Purges(before) + purges
  }

  class Container {
    const settings: Settings
    const db: Database
    const teams: TeamsGateway
    const rt: Runtime
    const digest: Material -> string
    ghost const epoch: int
    ghost var reviewLog: seq<ReviewRuns.Event>
    ghost var reviewer: ReviewRuns.Worker
    ghost var outboxLog: seq<OutboxRuns.Event>
    ghost var sender: OutboxRuns.Worker
    ghost var teamsLog: seq<Teams.Event>
    ghost var cards: seq<SentCard>

    ghost function Config(): ReviewRuns.Config {
      ConfigOf(settings, epoch)
    }

    ghost predicate Valid()
      reads this, db
    {
      && db.settings == settings && teams.settings == settings && teams.database == db && settings.Sensible()
      && (forall a :: a in db.audits ==> a < db.nextAudit)
      && ReviewLog(Config(), reviewLog, db.Reviews(), reviewer, db.clock)
      && OutboxLog(epoch, outboxLog, db.deliveries, db.nextDelivery, sender, db.clock)
      && Teams.Run(settings.allowedTenants, teamsLog) == db.Destinations()
      && Welcome(settings.allowedTenants, cards, teamsLog)
    }

    constructor (settings: Settings, rt: Runtime, digest: Material -> string, epoch: int)
      requires settings.Sensible()
      ensures Valid() && fresh(db) && reviewer.Down? && sender.Down?
      ensures this.settings == settings && reviewLog == [] && outboxLog == [] && teamsLog == [] && cards == []
    {
      this.settings, this.rt, this.digest, this.epoch := settings, rt, digest, epoch;
      var database := new Database(settings, epoch);
      db := database;
      teams := new TeamsGateway(settings, database);
      reviewLog, reviewer := [], ReviewRuns.Down;
      outboxLog, sender := [], OutboxRuns.Down;
      teamsLog, cards := [], [];
    }

    // ---------- Audit and submission ----------

    /** The delivery an audit event becomes. */
    function AuditPayload(event: nat, eventType: string, actor: string, payload: Json): Json {
      Obj(map["event_id" := Num(Decimal(event)), "event_type" := Str(eventType), "actor" := Str(actor),
              "payload" := Redact(payload, settings.redactionKeys, rt.lower)])
    }

    /** A payload as audit events carry it: masked at every listed key and nowhere else. */
    ghost predicate Masked(shown: Json, payload: Json) {
      Masks(shown, payload, settings.redactionKeys, rt.lower)
    }

    /** The forwarded form of an audit event. */
    ghost predicate Forwards(delivered: Json, event: nat, eventType: string, actor: string, payload: Json) {
      && delivered.Obj? && delivered.fields.Keys == {"event_id", "event_type", "actor", "payload"}
      && delivered.fields["event_id"] == Num(Decimal(event)) && delivered.fields["event_type"] == Str(eventType)
      && delivered.fields["actor"] == Str(actor) && Masked(delivered.fields["payload"], payload)
    }

    lemma AuditPayloadForwards(event: nat, eventType: string, actor: string, payload: Json)
      ensures Forwards(AuditPayload(event, eventType, actor, payload), event, eventType, actor, payload)
    {
      hide Redact, Decimal;
      RedactionMasks(payload, settings.redactionKeys, rt.lower);
    }

    /** The stored row of an audit event. */
    ghost predicate Recorded(event: nat, eventType: string, actor: string, payload: Json)
      reads db`audits, db`clock
    {
      && event in db.audits
      && var row := db.audits[event];
      && row.eventType == eventType && row.actor == Clip(actor, 128) && Masked(row.payload, payload)
      && row.expiresAt <= db.clock + settings.auditRetentionDays * 86400
    }

    /** The events an audit adds to the outbox log: one when forwarding is configured. */
    ghost function Forwarded(event: nat, eventType: string, actor: string, payload: Json): seq<OutboxRuns.Event>
      reads db`clock
    {
      if settings.auditForwarded
      then [OutboxRuns.Enqueue(db.clock, Outbox.SplunkAudit, None, AuditPayload(event, eventType, actor, payload))]
      else []
    }

    /** Stores a redacted audit event, and forwards it when forwarding is configured. */
    method Audit(eventType: string, actor: string, payload: Json) returns (event: nat)
      requires Valid()
      modifies this`outboxLog, db`audits, db`nextAudit, db`deliveries, db`nextDelivery, db`clock
      ensures Valid() && db.clock >= old(db.clock)
      ensures event == old(db.nextAudit) && db.nextAudit == event + 1
      ensures Recorded(event, eventType, actor, payload)
      ensures event !in old(db.audits) && db.audits == old(db.audits)[event := db.audits[event]]
      ensures db.audits[event].expiresAt >= old(db.clock) + settings.auditRetentionDays * 86400
      ensures outboxLog == old(outboxLog) + Forwarded(event, eventType, actor, payload)
      ensures OutboxRuns.Flushes(outboxLog) == OutboxRuns.Flushes(old(outboxLog))
      ensures if settings.auditForwarded then
                && db.nextDelivery == old(db.nextDelivery) + 1
                && db.deliveries == old(db.deliveries)[old(db.nextDelivery) :=
                     Outbox.NewDelivery(Outbox.SplunkAudit, None,
                       AuditPayload(event, eventType, actor, payload), db.clock)]
              else
                db.nextDelivery == old(db.nextDelivery) && db.deliveries == old(db.deliveries)
      ensures KeepsDeliveries(old(db.deliveries), db.deliveries)
    {
      hide ReviewLog, OutboxLog, OutboxRuns.Flushes, Teams.Run, Welcome, Redact, Masks, AuditPayload;
      RedactionMasks(payload, settings.redactionKeys, rt.lower);
      event := StoreAudit(eventType, actor, Redact(payload, settings.redactionKeys, rt.lower));
      if settings.auditForwarded {
        EnqueueLogged(Outbox.SplunkAudit, AuditPayload(event, eventType, actor, payload), None);
      } else {
        assert outboxLog + [] == outboxLog;
      }
    }

    method StoreAudit(eventType: string, actor: string, payload: Json) returns (event: nat)
      requires Valid()
      modifies db`audits, db`nextAudit, db`clock
      ensures Valid() && db.clock >= old(db.clock)
      ensures event == old(db.nextAudit) && db.nextAudit == event + 1 && event !in old(db.audits)
      ensures event in db.audits && db.audits == old(db.audits)[event := db.audits[event]]
      ensures var row := db.audits[event];
              && row.eventType == eventType && row.actor == Clip(actor, 128) && row.payload == payload
              && row.expiresAt - settings.auditRetentionDays * 86400 <= db.clock
              && row.expiresAt - settings.auditRetentionDays * 86400 >= old(db.clock)
    {
      hide ReviewRuns.Valid, ReviewRuns.Run, OutboxRuns.Valid, OutboxRuns.Run, Teams.Run, Welcome;
      event := db.Audit(eventType, actor, payload);
    }

    /** The deliveries there were are there, as they were. */
    ghost predicate KeepsDeliveries(before: map<nat, Outbox.Delivery>, after: map<nat, Outbox.Delivery>) {
      forall id :: id in before ==> id in after && after[id] == before[id]
    }

    lemma IssuedDeliveryIsFree()
      requires Valid()
      ensures db.nextDelivery !in db.deliveries
    {
      OutboxRuns.RunsKeepInv(epoch, outboxLog);
    }

    method EnqueueLogged(channel: Outbox.Channel, payload: Json, target: Option<nat>)
      requires Valid()
      modifies this`outboxLog, db`deliveries, db`nextDelivery, db`clock
      ensures Valid() && db.clock >= old(db.clock) && db.nextDelivery == old(db.nextDelivery) + 1
      ensures db.deliveries == old(db.deliveries)[old(db.nextDelivery) :=
                Outbox.NewDelivery(channel, target, payload, db.clock)]
      ensures KeepsDeliveries(old(db.deliveries), db.deliveries)
      ensures outboxLog == old(outboxLog) + [OutboxRuns.Enqueue(db.clock, channel, target, payload)]
      ensures OutboxRuns.Flushes(outboxLog) == OutboxRuns.Flushes(old(outboxLog))
    {
      hide ReviewRuns.Valid, ReviewRuns.Run, OutboxRuns.Valid, OutboxRuns.Run, Teams.Run;
      IssuedDeliveryIsFree();
      var id := db.Enqueue(channel, payload, target);
      ghost var e := OutboxRuns.Enqueue(db.clock, channel, target, payload);
      OutboxLogGrows(epoch, outboxLog, e, old(db.deliveries), old(db.nextDelivery), sender, old(db.clock));
      OutboxRuns.FlushesOneMore(outboxLog, e);
      outboxLog := outboxLog + [e];
    }

    /** A new key adds a pending job. A known key is answered with its row when the stored form
        of the request is the same, and with a conflict otherwise; both leave the jobs alone. An
        accepted submission is audited. */
    method SubmitReview(key: string, request: ReviewRequest, actor: string) returns (r: Submitted)
      requires Valid()
      modifies this`reviewLog, this`reviewer, this`outboxLog, db`jobs, db`nextId
      modifies db`audits, db`nextAudit, db`deliveries, db`nextDelivery, db`clock
      ensures Valid() && reviewer == old(reviewer) && db.clock >= old(db.clock)
      ensures var stored := Stored(settings, rt, request);
              if Review.Taken(old(db.jobs), key) then
                && db.Reviews() == old(db.Reviews()) && reviewLog == old(reviewLog)
                && exists id :: id in db.jobs && db.jobs[id].key == key &&
                     r == if db.jobs[id].request == stored then Accepted(id, false) else Conflict
              else
                && r == Accepted(old(db.nextId), true) && r.id in db.jobs && r.id !in old(db.jobs)
                && db.jobs == old(db.jobs)[r.id := db.jobs[r.id]]
                && db.jobs[r.id].key == key && db.jobs[r.id].request == stored && db.jobs[r.id].status == Review.Pending
      ensures Counted(reviewLog, old(reviewLog), 0, 0) && old(reviewLog) <= reviewLog
      ensures OutboxRuns.Flushes(outboxLog) == OutboxRuns.Flushes(old(outboxLog))
      ensures KeepsDeliveries(old(db.deliveries), db.deliveries)
      ensures r.Accepted? && r.created ==> StoredAs(db.jobs[r.id].request, settings, rt, request)
      ensures r.Conflict? ==> outboxLog == old(outboxLog) && db.audits == old(db.audits)
      ensures r.Accepted? ==>
                var eventType := if r.created then "review_job.created" else "review_job.replayed";
                var payload := Obj(map["job_id" := Num(Decimal(r.id)), "selector" := request.selector]);
                && Recorded(old(db.nextAudit), eventType, actor, payload)
                && outboxLog == old(outboxLog) + Forwarded(old(db.nextAudit), eventType, actor, payload)
    {
      hide StoredAs, Stored, Recorded, Review.Taken;
      StoredForm(settings, rt, request);
      r := SubmitLogged(key, Stored(settings, rt, request));
      if r.Accepted? {
        var event := Audit(if r.created then "review_job.created" else "review_job.replayed", actor,
                           Obj(map["job_id" := Num(Decimal(r.id)), "selector" := request.selector]));
      }
    }

    method SubmitLogged(key: string, stored: Review.Request) returns (r: Submitted)
      requires Valid() && stored.rowLimit <= settings.promptMaxRows && |stored.source| <= 128
      modifies this`reviewLog, this`reviewer, db`jobs, db`nextId, db`clock
      ensures Valid() && reviewer == old(reviewer) && db.clock >= old(db.clock)
      ensures if Review.Taken(old(db.jobs), key) then
                && db.Reviews() == old(db.Reviews()) && reviewLog == old(reviewLog)
                && exists id :: id in db.jobs && db.jobs[id].key == key &&
                     r == if db.jobs[id].request == stored then Accepted(id, false) else Conflict
              else
                && r == Accepted(old(db.nextId), true) && r.id in db.jobs && r.id !in old(db.jobs)
                && db.jobs == old(db.jobs)[r.id := db.jobs[r.id]]
                && db.jobs[r.id].key == key && db.jobs[r.id].request == stored && db.jobs[r.id].status == Review.Pending
      ensures Counted(reviewLog, old(reviewLog), 0, 0) && old(reviewLog) <= reviewLog
    {
      hide ReviewRuns.Valid, ReviewRuns.Run, OutboxRuns.Valid, OutboxRuns.Run, Teams.Run;
      ghost var store, clock := db.Reviews(), db.clock;
      IssuedIdIsFree();
      r := db.CreateJob(key, stored);
      if r.Accepted? && r.created {
        LogReview(ReviewRuns.Submit(db.clock, key, stored), store, clock);
      }
    }

    lemma IssuedIdIsFree()
      requires Valid()
      ensures db.nextId !in db.jobs
    {
      ReviewRuns.RunsKeepInv(Config(), reviewLog);
    }

    // ---------- One round of review ----------

    /** A pending delivery of a card to a destination. */
    ghost predicate Announced(rows: map<nat, Outbox.Delivery>, id: nat, target: nat, card: Json) {
      && id in rows && rows[id].channel.Teams? && rows[id].target == Some(target)
      && rows[id].payload == Obj(map["card" := card]) && rows[id].status == Outbox.Pending
    }

    /** The destinations a decision is announced to: none when Teams is off. */
    ghost function Audience(): set<nat>
      reads db`installations
    {
      if settings.teamsEnabled then db.LiveDestinations() else {}
    }

    /** One pending delivery per destination of the audience, in the order of their discovery;
        only the first of them when there is a limit. */
    method EnqueueNotifications(card: Json, limit: Option<nat>) returns (targets: seq<nat>)
      requires Valid()
      modifies this`outboxLog, db`deliveries, db`nextDelivery, db`clock
      ensures Valid() && db.clock >= old(db.clock)
      ensures |targets| == if limit.Some? then Min(limit.value, |Audience()|) else |Audience()|
      ensures forall id :: id in targets ==> id in Audience()
      ensures db.ByDiscovery(targets)
      ensures db.nextDelivery == old(db.nextDelivery) + |targets|
      ensures forall i :: 0 <= i < |targets| ==> Announced(db.deliveries, old(db.nextDelivery) + i, targets[i], card)
      ensures limit.None? ==> CardsFrom(old(db.nextDelivery), card)
      ensures OutboxRuns.Flushes(outboxLog) == OutboxRuns.Flushes(old(outboxLog))
    {
      hide ReviewRuns.Valid, ReviewRuns.Run, OutboxRuns.Valid, OutboxRuns.Run, OutboxRuns.Flushes, Teams.Run, Welcome;
      if !settings.teamsEnabled {
        return [];
      }
      var audience := db.EnabledInstallations();
      targets := if limit.Some? then Clip(audience, limit.value) else audience;
      EnqueueCards(card, targets);
      if limit.None? {
        CardsReachAll(old(db.nextDelivery), card, targets);
      }
    }

    method EnqueueCards(card: Json, targets: seq<nat>)
      requires Valid()
      modifies this`outboxLog, db`deliveries, db`nextDelivery, db`clock
      ensures Valid() && db.clock >= old(db.clock)
      ensures db.nextDelivery == old(db.nextDelivery) + |targets|
      ensures forall i :: 0 <= i < |targets| ==> Announced(db.deliveries, old(db.nextDelivery) + i, targets[i], card)
      ensures OutboxRuns.Flushes(outboxLog) == OutboxRuns.Flushes(old(outboxLog))
    {
      hide ReviewLog, OutboxLog, OutboxRuns.Flushes, Teams.Run, Welcome;
      ghost var base := db.nextDelivery;
      for i := 0 to |targets|
        invariant Valid() && db.clock >= old(db.clock)
        invariant db.nextDelivery == base + i && OutboxRuns.Flushes(outboxLog) == OutboxRuns.Flushes(old(outboxLog))
        invariant forall k :: 0 <= k < i ==> Announced(db.deliveries, base + k, targets[k], card)
      {
        EnqueueLogged(Outbox.Channel.Teams, Obj(map["card" := card]), Some(targets[i]));
      }
    }

    lemma CardsReachAll(base: nat, card: Json, targets: seq<nat>)
      requires |targets| == |Audience()| && forall id :: id in Audience() ==> id in targets
      requires forall i :: 0 <= i < |targets| ==> Announced(db.deliveries, base + i, targets[i], card)
      ensures CardsFrom(base, card)
    {
      hide Announced;
      forall t | settings.teamsEnabled && t in db.installations &&
          db.installations[t].enabled && db.installations[t].active
        ensures exists id :: base <= id < base + |Audience()| && Announced(db.deliveries, id, t, card)
      {
        assert t in Audience();
        var k :| 0 <= k < |targets| && targets[k] == t;
        assert Announced(db.deliveries, base + k, t, card);
      }
    }

    ghost predicate Holds(id: nat)
      reads this, db
    {
      reviewer.Holding? && reviewer.id == id && id in db.jobs && reviewer.job == db.jobs[id]
    }

    method ClaimLogged() returns (claimed: Option<nat>)
      requires Valid() && reviewer.Idle?
      modifies this`reviewLog, this`reviewer, db`jobs, db`clock
      ensures Valid() && db.clock >= old(db.clock)
      ensures claimed.None? ==>
                && reviewer.Idle? && reviewLog == old(reviewLog) && db.jobs == old(db.jobs)
                && forall id :: id in db.jobs ==> !db.Waits(db.jobs[id], db.clock)
      ensures claimed.Some? ==>
                && Holds(claimed.value) && claimed.value in old(db.jobs)
                && db.jobs[claimed.value] == Review.ClaimedRow(old(db.jobs)[claimed.value], db.clock)
                && reviewLog == old(reviewLog) + [ReviewRuns.Claim(db.clock, claimed.value)]
      ensures Counted(reviewLog, old(reviewLog), if claimed.Some? then 1 else 0, 0)
    {
      hide ReviewRuns.Valid, ReviewRuns.Run, OutboxRuns.Valid, OutboxRuns.Run, Teams.Run;
      claimed := db.ClaimJob();
      if claimed.Some? {
        ghost var e := ReviewRuns.Claim(db.clock, claimed.value);
        LogReview(e, old(db.Reviews()), old(db.clock));
      }
    }

    method FailLogged(id: nat, error: Failure)
      requires Valid() && Holds(id)
      modifies this`reviewLog, this`reviewer, db`jobs, db`clock
      ensures Valid() && reviewer.Idle? && db.clock >= old(db.clock)
      ensures reviewLog == old(reviewLog) + [ReviewRuns.Fail(db.clock, error)]
      ensures Counted(reviewLog, old(reviewLog), 0, 0)
    {
      hide ReviewRuns.Valid, ReviewRuns.Run, OutboxRuns.Valid, OutboxRuns.Run, Teams.Run;
      var job := db.jobs[id];
      var delay := Min(900, Pow2(Min(job.attempts, 9)));
      db.RetryJob(id, job.attempts, job.maxAttempts, error, delay);
      ghost var e := ReviewRuns.Fail(db.clock, error);
      LogReview(e, old(db.Reviews()), old(db.clock));
    }

    method CompleteLogged(id: nat, verdict: Review.Verdict, model: Review.Model, items: seq<Item>, findingKey: string)
      returns (decision: nat)
      requires Valid() && Holds(id)
      requires Numbered(items) && |items| <= db.jobs[id].request.rowLimit
      requires forall c :: c in verdict.cited ==> c in Ids(items)
      modifies this`reviewLog, this`reviewer
      modifies db`jobs, db`evidence, db`decisions, db`findings, db`nextId, db`clock
      ensures Valid() && reviewer.Idle? && db.clock >= old(db.clock)
      ensures reviewLog == old(reviewLog) + [ReviewRuns.Complete(db.clock, verdict, model, items, findingKey)]
      ensures Stands(id, decision, verdict, model)
      ensures db.StoredFrom(old(db.nextId), id, items, db.clock + settings.evidenceRetentionDays * 86400)
      ensures Counted(reviewLog, old(reviewLog), 0, 0)
    {
      hide ReviewRuns.Valid, ReviewRuns.Run, OutboxRuns.Valid, OutboxRuns.Run, Teams.Run, Review.Completed,
        Welcome, OutboxRuns.Flushes, Database.StoredFrom, Numbered;
      var committed := db.CompleteJob(id, verdict, model, items, findingKey);
      decision := committed.value;
      ghost var e := ReviewRuns.Complete(db.clock, verdict, model, items, findingKey);
      LogReview(e, old(db.Reviews()), old(db.clock));
    }

    /** The job has succeeded with this decision: its result and the decision row hold the verdict
        and the model. */
    ghost predicate Stands(id: nat, decision: nat, verdict: Review.Verdict, model: Review.Model)
      reads db`jobs, db`decisions
    {
      && id in db.jobs && db.jobs[id].status == Review.Succeeded && db.jobs[id].result.Some?
      && db.jobs[id].result.value.verdict == verdict && db.jobs[id].result.value.decisionId == decision
      && decision in db.decisions && db.decisions[decision] == Review.Decision(id, verdict, model)
    }

    /** The evidence rows from `first` on hold what the model was shown. */
    ghost predicate KeptFrom(first: nat, id: nat, items: seq<Item>)
      reads db`evidence
    {
      forall e :: first <= e < first + |items| ==>
        e in db.evidence && db.evidence[e].jobId == id && Review.Keeps(db.evidence[e], items[e - first])
    }

    lemma StoredIsKept(first: nat, id: nat, items: seq<Item>, expires: int)
      requires db.StoredFrom(first, id, items, expires)
      requires forall i :: 0 <= i < |items| ==> Presentable(items[i])
      ensures KeptFrom(first, id, items)
    {
      forall e | first <= e < first + |items|
        ensures e in db.evidence && db.evidence[e].jobId == id && Review.Keeps(db.evidence[e], items[e - first])
      {
        Review.PresentableIsKept(db.evidence[e], id, items[e - first], expires);
      }
    }

    /** The evidence a round collects, and whether its reply may be committed. */
    ghost function Shown(request: Review.Request, search: Option<SearchReply>): Fetched {
      Collected(SummaryOf(request), request.rowLimit, search, settings.redactionKeys, rt)
    }

    /** The rows of a search reach the model as they came, masked at every listed key. */
    lemma SearchIsShown(request: Review.Request, rows: seq<map<string, Json>>, url: string)
      ensures var r := Shown(request, Some(Found(rows, url)));
              && r.Rows? && |r.evidence| == Min(request.rowLimit, |rows|)
              && forall i :: 0 <= i < |r.evidence| ==>
                   RowShownAs(r.evidence[i], i, rows[i], url, settings.redactionKeys, rt)
    {
      SearchEvidenceIsShown(SummaryOf(request), request.rowLimit, rows, url, settings.redactionKeys, rt);
    }

    /** And without a search the rows that came with the request do. */
    lemma SummaryIsShown(request: Review.Request, items: seq<Json>)
      requires request.summary.Obj? && "evidence" in request.summary.fields
      requires request.summary.fields["evidence"] == Arr(items)
      ensures var r := Shown(request, None);
              && r.Rows? && |r.evidence| == Min(request.rowLimit, |items|)
              && forall i :: 0 <= i < |r.evidence| ==> ShownAs(r.evidence[i], i, items[i], settings.redactionKeys, rt)
    {
      SuppliedEvidenceIsShown(request.summary.fields, request.rowLimit, items, settings.redactionKeys, rt);
    }

    ghost predicate Sound(request: Review.Request, search: Option<SearchReply>, reply: Reply) {
      && Shown(request, search).Rows? && reply.Replied?
      && forall c :: c in reply.verdict.cited ==> c in Ids(Shown(request, search).evidence)
    }

    /** Collects the evidence and checks the reply against it. */
    method Judge(request: Review.Request, search: Option<SearchReply>, reply: Reply)
      returns (sound: bool, items: seq<Item>, error: Failure)
      ensures sound <==> Sound(request, search, reply)
      ensures sound ==> items == Shown(request, search).evidence && Numbered(items) && |items| <= request.rowLimit
      ensures sound ==> forall i :: 0 <= i < |items| ==> Presentable(items[i])
      ensures sound ==> forall c :: c in reply.verdict.cited ==> c in Ids(items)
      ensures !sound && Shown(request, search).FetchError? ==> error == Shown(request, search).error
      ensures !sound && Shown(request, search).Rows? && reply.ReplyFailed? ==> error == reply.error
      ensures !sound && Shown(request, search).Rows? && reply.Replied? ==>
                error == Failure("PiError", "Pi referenced evidence IDs that were not supplied")
    {
      CollectedIsPresentable(SummaryOf(request), request.rowLimit, search, settings.redactionKeys, rt);
      var fetched := Fetch(SummaryOf(request), request.rowLimit, search, settings.redactionKeys, rt);
      if fetched.FetchError? {
        return false, [], fetched.error;
      }
      items := fetched.evidence;
      if reply.ReplyFailed? {
        return false, items, reply.error;
      }
      sound := forall c | c in reply.verdict.cited :: c in Ids(items);
      error := UNSUPPLIED;
    }

    /** One round: claim, collect, ask, check, and commit or retry, while the API goes on
        serving. A round commits exactly when evidence was collected, a reply came, and the
        reply cites only collected ids; it commits that evidence under the digest of its
        identity. */
    method ProcessNextJob(search: Option<SearchReply>, reply: Reply, card: Json, during: seq<Action>)
      returns (r: Round, ghost first: nat, ghost event: nat)
      requires Valid() && reviewer.Idle?
      modifies this`reviewLog, this`reviewer, this`outboxLog, this`teamsLog
      modifies db`jobs, db`evidence, db`decisions, db`findings, db`nextId, db`installations, db`nextInstallation
      modifies db`audits, db`nextAudit, db`deliveries, db`nextDelivery, db`clock
      ensures Valid() && reviewer.Idle? && db.clock >= old(db.clock)
      ensures r.NothingDue? ==>
                && reviewLog == old(reviewLog) && outboxLog == old(outboxLog)
                && forall id :: id in db.jobs ==> !db.Waits(db.jobs[id], db.clock)
      ensures !r.NothingDue? ==>
                && r.id in old(db.jobs) && |reviewLog| >= |old(reviewLog)| + 2
                && var claim, e := reviewLog[|old(reviewLog)|], reviewLog[|reviewLog| - 1];
                && old(reviewLog) <= reviewLog && claim.Claim? && claim.id == r.id
                && RoundEnds(old(db.jobs)[r.id].request, search, reply, r, e)
      ensures !r.NothingDue? ==> RoundReports(r, card, first, event)
      ensures Counted(reviewLog, old(reviewLog), if r.NothingDue? then 0 else 1, 0)
      ensures OutboxRuns.Flushes(outboxLog) == OutboxRuns.Flushes(old(outboxLog))
    {
      hide Valid, OutboxRuns.Flushes, ReviewDrain.Claims, ReviewDrain.Purges, RoundEnds, RoundReports, Database.Waits;
      first, event := 0, 0;
      var claimed := ClaimLogged();
      if claimed.None? {
        return NothingDue, 0, 0;
      }
      Serve(during);
      first, event := db.nextDelivery, db.nextAudit;
      r := Conclude(claimed.value, search, reply, card);
    }

    /** What follows the claim of a round. */
    method Conclude(id: nat, search: Option<SearchReply>, reply: Reply, card: Json) returns (r: Round)
      requires Valid() && Holds(id)
      modifies this`reviewLog, this`reviewer, this`outboxLog
      modifies db`jobs, db`evidence, db`decisions, db`findings, db`nextId
      modifies db`audits, db`nextAudit, db`deliveries, db`nextDelivery, db`clock
      ensures Valid() && reviewer.Idle? && db.clock >= old(db.clock)
      ensures !r.NothingDue? && r.id == id && |reviewLog| == |old(reviewLog)| + 1
      ensures reviewLog == old(reviewLog) + [reviewLog[|old(reviewLog)|]]
      ensures RoundEnds(old(db.jobs)[id].request, search, reply, r, reviewLog[|old(reviewLog)|])
      ensures r.Succeeded? ==>
                reply.Replied? && r.model == reply.model && Stands(id, r.decision, reply.verdict, r.model)
      ensures r.Succeeded? ==> KeptFrom(old(db.nextId), id, old(Shown(db.jobs[id].request, search)).evidence)
      ensures RoundReports(r, card, old(db.nextDelivery), old(db.nextAudit)) && Counted(reviewLog, old(reviewLog), 0, 0)
      ensures OutboxRuns.Flushes(outboxLog) == OutboxRuns.Flushes(old(outboxLog))
    {
      hide Counted, RoundReports, RoundEnds, OutboxRuns.Flushes, Valid, Stands;
      r := Settle(id, search, reply);
      Report(r, card);
    }

    /** Judges the reply, and commits or retries. */
    method Settle(id: nat, search: Option<SearchReply>, reply: Reply) returns (r: Round)
      requires Valid() && Holds(id)
      modifies this`reviewLog, this`reviewer
      modifies db`jobs, db`evidence, db`decisions, db`findings, db`nextId, db`clock
      ensures Valid() && reviewer.Idle? && db.clock >= old(db.clock)
      ensures !r.NothingDue? && r.id == id && |reviewLog| == |old(reviewLog)| + 1
      ensures reviewLog == old(reviewLog) + [reviewLog[|old(reviewLog)|]]
      ensures RoundEnds(old(db.jobs)[id].request, search, reply, r, reviewLog[|old(reviewLog)|])
      ensures r.Succeeded? ==>
                reply.Replied? && r.model == reply.model && Stands(id, r.decision, reply.verdict, r.model)
      ensures r.Succeeded? ==> KeptFrom(old(db.nextId), id, old(Shown(db.jobs[id].request, search)).evidence)
      ensures Counted(reviewLog, old(reviewLog), 0, 0)
    {
      hide Valid, Counted, Collected, MaterialOf, Numbered, Presentable, KeptFrom, Stands, Database.StoredFrom;
      var request := db.jobs[id].request;
      var sound, items, error := Judge(request, search, reply);
      if sound {
        var material := FindingMaterial(request.selectorType, request.source, items);
        var decision := CompleteLogged(id, reply.verdict, reply.model, items, digest(material));
        StoredIsKept(old(db.nextId), id, items, db.clock + settings.evidenceRetentionDays * 86400);
        r := Succeeded(id, decision, reply.model);
      } else {
        FailLogged(id, error);
        r := NotSucceeded(id, error);
      }
    }

    /** Announces the end of a round. */
    method Report(r: Round, card: Json)
      requires Valid() && !r.NothingDue?
      modifies this`outboxLog, db`audits, db`nextAudit, db`deliveries, db`nextDelivery, db`clock
      ensures Valid() && db.clock >= old(db.clock)
      ensures RoundReports(r, card, old(db.nextDelivery), old(db.nextAudit))
      ensures OutboxRuns.Flushes(outboxLog) == OutboxRuns.Flushes(old(outboxLog))
    {
      hide Valid, Recorded, AuditPayload, RoundPayload, Tells, CardsIn, Forwards, Outbox.NewDelivery,
        OutboxRuns.Flushes;
      if r.Succeeded? {
        var targets := EnqueueNotifications(card, None);
      }
      ghost var cards := db.deliveries;
      var event := Audit(RoundEvent(r), "worker", RoundPayload(r));
      RoundPayloadTells(r);
      if r.Succeeded? {
        CardsStay(old(db.nextDelivery), card, cards);
      }
      if settings.auditForwarded {
        AuditPayloadForwards(event, RoundEvent(r), "worker", RoundPayload(r));
        AuditDelivery(event, RoundEvent(r), RoundPayload(r));
      }
    }

    /** These deliveries hold the cards. */
    ghost predicate CardsIn(rows: map<nat, Outbox.Delivery>, first: nat, card: Json)
      reads db`installations
    {
      settings.teamsEnabled ==>
        forall t :: t in db.installations && db.installations[t].enabled && db.installations[t].active ==>
          exists id :: first <= id < first + |Audience()| && Announced(rows, id, t, card)
    }

    lemma CardsStay(first: nat, card: Json, before: map<nat, Outbox.Delivery>)
      requires CardsIn(before, first, card) && KeepsDeliveries(before, db.deliveries)
      ensures CardsFrom(first, card)
    {
      forall t | settings.teamsEnabled && t in db.installations &&
          db.installations[t].enabled && db.installations[t].active
        ensures exists id :: first <= id < first + |Audience()| && Announced(db.deliveries, id, t, card)
      {
        var id :| first <= id < first + |Audience()| && Announced(before, id, t, card);
        assert Announced(db.deliveries, id, t, card);
      }
    }

    lemma AuditDelivery(event: nat, eventType: string, payload: Json)
      ensures var row := Outbox.NewDelivery(Outbox.SplunkAudit, None,
                           AuditPayload(event, eventType, "worker", payload), db.clock);
              row.channel.SplunkAudit? && row.payload == AuditPayload(event, eventType, "worker", payload)
    {
    }

    /** How a round ends: the event that answers its claim. */
    ghost predicate RoundEnds(request: Review.Request, search: Option<SearchReply>, reply: Reply, r: Round,
                              e: ReviewRuns.Event) {
      if Sound(request, search, reply) then
        && r.Succeeded? && e.Complete? && e.verdict == reply.verdict && e.model == reply.model
        && e.items == Shown(request, search).evidence
        && e.findingKey == digest(MaterialOf(request.selectorType, request.source, e.items))
      else
        r.NotSucceeded? && e.Fail? && e.error == r.error
    }

    /** What a round adds to the outbox from row `first` on and to the audit events: after a
        success a card for each destination of the audience, and in either case one audit event,
        forwarded where configured. */
    ghost predicate RoundReports(r: Round, card: Json, first: nat, event: nat)
      requires !r.NothingDue?
      reads db`deliveries, db`nextDelivery, db`installations, db`audits, db`clock
    {
      var cards := if r.Succeeded? then |Audience()| else 0;
      var eventType := if r.Succeeded? then "review_job.succeeded" else "review_job.retry";
      && db.nextDelivery == first + cards + (if settings.auditForwarded then 1 else 0)
      && (r.Succeeded? ==> CardsFrom(first, card))
      && Tells(RoundPayload(r), r) && Recorded(event, eventType, "worker", RoundPayload(r))
      && (settings.auditForwarded ==>
            && first + cards in db.deliveries && db.deliveries[first + cards].channel.SplunkAudit?
            && Forwards(db.deliveries[first + cards].payload, event, eventType, "worker", RoundPayload(r)))
    }

    /** One of the deliveries from `first` on is the card for each enabled active destination. */
    ghost predicate CardsFrom(first: nat, card: Json)
      reads db`deliveries, db`installations
    {
      CardsIn(db.deliveries, first, card)
    }

    /** The audience is exactly the stored destinations whose latest word was an administrator's
        enable, and nobody when Teams is off. */
    lemma AudienceExactly(t: nat)
      requires Valid()
      ensures t in Audience() <==>
                && settings.teamsEnabled && t in db.installations
                && Teams.LastWordIsEnable(settings.allowedTenants, teamsLog, db.installations[t].at)
    {
      if t in db.installations {
        EnabledByLastWord(t);
      }
    }

    lemma EnabledByLastWord(t: nat)
      requires Valid() && t in db.installations
      ensures db.installations[t].enabled <==>
              Teams.LastWordIsEnable(settings.allowedTenants, teamsLog, db.installations[t].at)
      ensures db.installations[t].enabled ==> db.installations[t].active
    {
      hide ReviewLog, OutboxLog, Welcome, Teams.Run, Teams.LastWordIsEnable;
      Teams.HistoriesKeepInv(settings.allowedTenants, teamsLog);
      Teams.EnabledExactlyByLastWord(settings.allowedTenants, teamsLog, db.installations[t].at);
      if db.installations[t].enabled {
        assert Teams.EnabledAt(db.Destinations(), db.installations[t].at);
      }
    }

    function ModelPayload(m: Review.Model): Json {
      Obj(map["provider" := Str(m.provider), "model" := Str(m.model), "pi_version" := Str(m.piVersion)])
    }

    function ErrorPayload(e: Failure): Json {
      Obj(map["type" := Str(e.kind), "message" := Str(e.message)])
    }

    /** What the audit event of a round tells: the job, and the decision with its model or the error. */
    ghost predicate Tells(payload: Json, r: Round)
      requires !r.NothingDue?
    {
      && payload.Obj?
      && payload.fields.Keys == (if r.Succeeded? then {"job_id", "decision_id", "model"} else {"job_id", "error"})
      && payload.fields["job_id"] == Num(Decimal(r.id))
      && (r.Succeeded? ==>
            && payload.fields["decision_id"] == Num(Decimal(r.decision))
            && payload.fields["model"] == Obj(map["provider" := Str(r.model.provider), "model" := Str(r.model.model),
                                                  "pi_version" := Str(r.model.piVersion)]))
      && (r.NotSucceeded? ==>
            payload.fields["error"] == Obj(map["type" := Str(r.error.kind), "message" := Str(r.error.message)]))
    }

    lemma RoundPayloadTells(r: Round)
      requires !r.NothingDue?
      ensures Tells(RoundPayload(r), r)
    {
      hide Decimal;
    }

    function RoundEvent(r: Round): string {
      if r.Succeeded? then "review_job.succeeded" else "review_job.retry"
    }

    function RoundPayload(r: Round): Json
      requires !r.NothingDue?
    {
      var job := map["job_id" := Num(Decimal(r.id))];
      Obj(if r.Succeeded? then job["decision_id" := Num(Decimal(r.decision))]["model" := ModelPayload(r.model)]
          else job["error" := ErrorPayload(r.error)])
    }

    // ---------- The flush ----------

    /** What a row and the settings must provide for a call: a card and a target for Teams, an
        audit endpoint for an audit event. */
    predicate Sendable(row: Outbox.Delivery) {
      match row.channel
      case Teams => settings.teamsEnabled && row.target.Some? && row.payload.Obj? && "card" in row.payload.fields
      case SplunkAudit => settings.auditForwarded
      case Unknown(_) => false
    }

    /** Whether an external call is made for a row at all: a card only goes to a destination
        that is active and enabled. */
    predicate Permitted(row: Outbox.Delivery)
      reads db`installations
    {
      && Sendable(row)
      && (row.channel.Teams? ==>
            && row.target.value in db.installations
            && db.installations[row.target.value].active && db.installations[row.target.value].enabled)
    }

    /** Exactly which calls are made: a card whose destination's latest word was an administrator's
        enable, when Teams is configured, and an audit event, when forwarding is. */
    lemma PermittedExactly(row: Outbox.Delivery)
      requires Valid()
      ensures row.channel.Teams? ==>
                (Permitted(row) <==>
                  && settings.teamsEnabled && row.payload.Obj? && "card" in row.payload.fields
                  && row.target.Some? && row.target.value in db.installations
                  && Teams.LastWordIsEnable(settings.allowedTenants, teamsLog, db.installations[row.target.value].at))
      ensures row.channel.SplunkAudit? ==> (Permitted(row) <==> settings.auditForwarded)
      ensures row.channel.Unknown? ==> !Permitted(row)
    {
      if row.channel.Teams? && row.target.Some? && row.target.value in db.installations {
        EnabledByLastWord(row.target.value);
      }
    }

    /** The record of a call: a card, where the row is one. */
    ghost function CardOf(row: Outbox.Delivery): seq<SentCard>
      reads db`installations, this`teamsLog
    {
      if row.channel.Teams? && row.target.Some? && row.target.value in db.installations
      then [SentCard(db.installations[row.target.value].at, teamsLog)] else []
    }

    /** Puts a permitted call on record. */
    ghost method LogCard(row: Outbox.Delivery)
      requires Valid() && Permitted(row)
      modifies this`cards
      ensures Valid() && cards == old(cards) + CardOf(row)
    {
      hide ReviewLog, OutboxLog, Teams.Run, Teams.LastWordIsEnable;
      if row.channel.Teams? {
        CardsGoToEnabledDestinations(row);
      }
      cards := cards + CardOf(row);
    }

    ghost predicate At(batch: seq<nat>, read: map<nat, Outbox.Delivery>, since: int, i: nat)
      reads this`sender
    {
      if i < |batch| then sender == OutboxRuns.Flushing(batch, read, since, i, false) else sender.Idle?
    }

    /** The row of a batch after its turn: one attempt more, and sent, waiting or failed. */
    ghost predicate Tried(before: Outbox.Delivery, after: Outbox.Delivery, ok: bool) {
      after == if ok then Outbox.SentRow(before, after.updatedAt)
               else Outbox.FailedRow(before, before, after.lastError, after.updatedAt)
    }

    ghost method LogOutbox(e: OutboxRuns.Event, rows: map<nat, Outbox.Delivery>, worker: OutboxRuns.Worker, clock: int)
      requires OutboxLog(epoch, outboxLog, rows, db.nextDelivery, sender, clock) && clock <= e.at <= db.clock
      requires OutboxRuns.Enabled(OutboxRuns.World(rows, db.nextDelivery, sender, clock), e)
      requires OutboxRuns.Apply(OutboxRuns.World(rows, db.nextDelivery, sender, clock), e) ==
               OutboxRuns.World(db.deliveries, db.nextDelivery, worker, e.at)
      modifies this`outboxLog, this`sender
      ensures outboxLog == old(outboxLog) + [e] && sender == worker
      ensures OutboxRuns.Flushes(outboxLog) == OutboxRuns.Flushes(old(outboxLog)) + if e.Flush? then 1 else 0
      ensures OutboxLog(epoch, outboxLog, db.deliveries, db.nextDelivery, sender, db.clock)
    {
      OutboxLogGrows(epoch, outboxLog, e, rows, db.nextDelivery, sender, clock);
      OutboxRuns.FlushesOneMore(outboxLog, e);
      outboxLog := outboxLog + [e];
      sender := worker;
    }

    lemma TurnIsReady(batch: seq<nat>, read: map<nat, Outbox.Delivery>, since: int, i: nat, called: bool)
      requires Valid() && i < |batch| && sender == OutboxRuns.Flushing(batch, read, since, i, called)
      ensures batch[i] in read && batch[i] in db.deliveries && db.deliveries[batch[i]] == read[batch[i]]
      ensures OutboxRuns.Current(sender) == batch[i]
    {
      OutboxRuns.RunsKeepInv(epoch, outboxLog);
      OutboxRuns.CurrentIsDue(OutboxRuns.Run(epoch, outboxLog));
    }

    /** One turn of a flush: the call, where permitted, and the note of its result; the API may
        be served while the call is out. Anything that goes wrong, before or in the call, is
        noted as a failure. */
    method DeliverOne(batch: seq<nat>, read: map<nat, Outbox.Delivery>, ghost since: int, i: nat,
                      outcome: Option<string>, during: seq<Action>)
      returns (ok: bool, called: bool)
      requires Valid() && i < |batch| && At(batch, read, since, i) && batch[i] in read
      modifies this`reviewLog, this`reviewer, this`outboxLog, this`sender, this`teamsLog, this`cards
      modifies db`jobs, db`nextId, db`installations, db`nextInstallation
      modifies db`audits, db`nextAudit, db`deliveries, db`nextDelivery, db`clock
      ensures Valid() && At(batch, read, since, i + 1) && reviewer == old(reviewer) && db.clock >= old(db.clock)
      ensures called <==> old(Permitted(read[batch[i]]))
      ensures ok <==> called && outcome.None?
      ensures cards == old(cards) + if called then old(CardOf(read[batch[i]])) else []
      ensures batch[i] in db.deliveries && Tried(read[batch[i]], db.deliveries[batch[i]], ok)
      ensures KeepsOthers(old(db.deliveries), db.deliveries, batch[i]) && KeepsRows(old(db.jobs), db.jobs)
      ensures old(reviewLog) <= reviewLog && Counted(reviewLog, old(reviewLog), 0, 0)
      ensures OutboxRuns.Flushes(outboxLog) == OutboxRuns.Flushes(old(outboxLog))
    {
      hide Counted, ReviewLog, OutboxLog, OutboxRuns.Flushes, OutboxRuns.Apply, Teams.Run, Welcome, Tried, CardOf;
      called := Permitted(read[batch[i]]);
      if called {
        LogCard(read[batch[i]]);
        LogCall(batch, read, since, i);
        Serve(during);
      } else {
        NothingCounted(reviewLog);
      }
      ok := called && outcome.None?;
      var error := if called then outcome.GetOr("") else "delivery is not possible";
      NoteResult(batch, read, since, i, called, if ok then None else Some(error));
    }

    lemma NothingCounted(log: seq<ReviewRuns.Event>)
      ensures Counted(log, log, 0, 0)
    {
    }

    ghost method LogCall(batch: seq<nat>, read: map<nat, Outbox.Delivery>, since: int, i: nat)
      requires Valid() && i < |batch| && At(batch, read, since, i)
      modifies this`outboxLog, this`sender
      ensures Valid() && sender == OutboxRuns.Flushing(batch, read, since, i, true)
      ensures OutboxRuns.Flushes(outboxLog) == OutboxRuns.Flushes(old(outboxLog))
    {
      hide ReviewLog, OutboxRuns.Valid, OutboxRuns.Run, OutboxRuns.Flushes, Teams.Run, Welcome;
      LogOutbox(OutboxRuns.Call(db.clock), db.deliveries, sender.(calling := true), db.clock);
    }

    /** Notes what became of a turn: nothing to report, or an error. */
    method NoteResult(batch: seq<nat>, read: map<nat, Outbox.Delivery>, ghost since: int, i: nat, ghost called: bool,
                      error: Option<string>)
      requires Valid() && i < |batch| && batch[i] in read
      requires sender == OutboxRuns.Flushing(batch, read, since, i, called) && (error.None? ==> called)
      modifies this`outboxLog, this`sender, db`deliveries, db`clock
      ensures Valid() && At(batch, read, since, i + 1) && db.clock >= old(db.clock)
      ensures batch[i] in db.deliveries && Tried(read[batch[i]], db.deliveries[batch[i]], error.None?)
      ensures KeepsOthers(old(db.deliveries), db.deliveries, batch[i])
      ensures OutboxRuns.Flushes(outboxLog) == OutboxRuns.Flushes(old(outboxLog))
    {
      hide ReviewRuns.Valid, ReviewRuns.Run, OutboxRuns.Valid, OutboxRuns.Run, OutboxRuns.Flushes, Teams.Run, Welcome;
      TurnIsReady(batch, read, since, i, called);
      var id := batch[i];
      ghost var rows, clock := db.deliveries, db.clock;
      match error
      case None =>
        db.DeliverySucceeded(id);
        LogOutbox(OutboxRuns.Ack(db.clock), rows, OutboxRuns.Advance(sender), clock);
      case Some(text) =>
        db.DeliveryFailed(id, read[id], text);
        LogOutbox(OutboxRuns.Fail(db.clock, text), rows, OutboxRuns.Advance(sender), clock);
    }

    /** The other deliveries there were are there, as they were. */
    ghost predicate KeepsOthers(before: map<nat, Outbox.Delivery>, after: map<nat, Outbox.Delivery>, id: nat) {
      forall k :: k in before && k != id ==> k in after && after[k] == before[k]
    }

    /** Every batch row has had one turn so far, in order; the other rows there were are
        untouched. */
    ghost predicate Flushed(before: map<nat, Outbox.Delivery>, after: map<nat, Outbox.Delivery>, batch: seq<nat>,
                            results: seq<bool>)
    {
      && before.Keys <= after.Keys && |results| <= |batch|
      && (forall id :: id in before && id !in batch[..|results|] ==> after[id] == before[id])
      && (forall k :: 0 <= k < |results| ==> batch[k] in before && Tried(before[batch[k]], after[batch[k]], results[k]))
    }

    lemma FlushedGrows(before: map<nat, Outbox.Delivery>, mid: map<nat, Outbox.Delivery>,
                       after: map<nat, Outbox.Delivery>,
                       batch: seq<nat>, results: seq<bool>, ok: bool)
      requires Flushed(before, mid, batch, results) && |results| < |batch|
      requires forall i, j :: 0 <= i < j < |batch| ==> batch[i] != batch[j]
      requires var id := batch[|results|];
               id in before && id in after && KeepsOthers(mid, after, id) && Tried(before[id], after[id], ok)
      ensures Flushed(before, after, batch, results + [ok])
    {
      hide Tried;
      var n := |results|;
      assert batch[..n + 1] == batch[..n] + [batch[n]];
    }

    /** How many of these rows are cards. */
    ghost function Cards(read: map<nat, Outbox.Delivery>, ids: seq<nat>): nat {
      if ids == [] then 0
      else
        var last := ids[|ids| - 1];
        Cards(read, ids[..|ids| - 1]) + if last in read && read[last].channel.Teams? then 1 else 0
    }

    /** The calls made so far: only for rows that can be sent, one for every success. */
    ghost predicate CallsFit(read: map<nat, Outbox.Delivery>, batch: seq<nat>, t: Tally) {
      && (forall id :: id in t.calls ==> id in read && id in batch && Sendable(read[id]))
      && (forall k :: 0 <= k < |t.results| && k < |batch| && t.results[k] ==> batch[k] in t.calls)
    }

    /** What a flush reports, against the outbox before and after it. */
    ghost predicate Reports(before: map<nat, Outbox.Delivery>, after: map<nat, Outbox.Delivery>,
                            batch: seq<nat>, t: Tally)
    {
      && Flushed(before, after, batch, t.results) && CallsFit(before, batch, t)
      && t.sent + t.failed == |t.results| && t.sent == Trues(t.results)
    }

    lemma CallsGrow(read: map<nat, Outbox.Delivery>, batch: seq<nat>, t: Tally, ok: bool, called: bool)
      requires CallsFit(read, batch, t) && |t.results| < |batch| && batch[|t.results|] in read
      requires (called ==> Sendable(read[batch[|t.results|]])) && (ok ==> called)
      ensures CallsFit(read, batch, t.Add(batch[|t.results|], ok, called))
    {
      hide Sendable;
      var n, next := |t.results|, t.Add(batch[|t.results|], ok, called);
      forall k | 0 <= k < |next.results| && next.results[k] ensures batch[k] in next.calls {
        assert k < n ==> t.results[k] == next.results[k];
      }
    }

    lemma ReportGrows(before: map<nat, Outbox.Delivery>, mid: map<nat, Outbox.Delivery>,
                      after: map<nat, Outbox.Delivery>, batch: seq<nat>, t: Tally, ok: bool, called: bool)
      requires Reports(before, mid, batch, t) && |t.results| < |batch|
      requires forall i, j :: 0 <= i < j < |batch| ==> batch[i] != batch[j]
      requires var id := batch[|t.results|];
               && id in before && id in after && KeepsOthers(mid, after, id) && Tried(before[id], after[id], ok)
               && (called ==> Sendable(before[id])) && (ok ==> called)
      ensures Reports(before, after, batch, t.Add(batch[|t.results|], ok, called))
    {
      hide Tried, Sendable, Flushed, CallsFit, KeepsOthers;
      FlushedGrows(before, mid, after, batch, t.results, ok);
      CallsGrow(before, batch, t, ok, called);
      assert (t.results + [ok])[..|t.results|] == t.results;
    }

    lemma CardsGrow(read: map<nat, Outbox.Delivery>, t: Tally, id: nat, ok: bool, called: bool)
      requires id in read
      ensures Cards(read, t.Add(id, ok, called).calls) ==
              Cards(read, t.calls) + if called && read[id].channel.Teams? then 1 else 0
    {
      assert (t.calls + [id])[..|t.calls|] == t.calls;
    }

    method ReadBatch() returns (batch: seq<nat>, read: map<nat, Outbox.Delivery>, ghost since: int)
      requires Valid() && sender.Idle?
      modifies this`outboxLog, this`sender, db`clock
      ensures Midway(batch, read, since, 0, Tally(0, 0, [], []))
      ensures old(db.clock) <= since <= db.clock && read == db.deliveries
      ensures Outbox.IsBatch(read, since, 25, batch)
      ensures OutboxRuns.Flushes(outboxLog) == OutboxRuns.Flushes(old(outboxLog)) + 1
    {
      hide ReviewRuns.Valid, ReviewRuns.Run, OutboxRuns.Valid, OutboxRuns.Run, OutboxRuns.Flushes, Teams.Run, Welcome,
        Outbox.IsBatch;
      ghost var start := db.clock;
      batch := db.PendingDeliveries(Outbox.BATCH);
      read, since := db.deliveries, db.clock;
      LogOutbox(OutboxRuns.Flush(db.clock, batch), db.deliveries,
                if batch == [] then OutboxRuns.Idle else OutboxRuns.Flushing(batch, read, since, 0, false), start);
    }

    /** A flush after `i` turns. */
    ghost predicate Midway(batch: seq<nat>, read: map<nat, Outbox.Delivery>, since: int, i: nat, t: Tally)
      reads this, db
    {
      Valid() && At(batch, read, since, i) && |t.results| == i && Reports(read, db.deliveries, batch, t)
    }

    method Turn(batch: seq<nat>, read: map<nat, Outbox.Delivery>, ghost since: int, i: nat, t: Tally,
                traffic: Traffic)
      returns (next: Tally)
      requires i < |batch| && Midway(batch, read, since, i, t)
      requires forall j, k :: 0 <= j < k < |batch| ==> batch[j] != batch[k]
      modifies this`reviewLog, this`reviewer, this`outboxLog, this`sender, this`teamsLog, this`cards
      modifies db`jobs, db`nextId, db`installations, db`nextInstallation
      modifies db`audits, db`nextAudit, db`deliveries, db`nextDelivery, db`clock
      ensures Midway(batch, read, since, i + 1, next) && reviewer == old(reviewer) && db.clock >= old(db.clock)
      ensures |cards| - |old(cards)| == Cards(read, next.calls) - Cards(read, t.calls)
      ensures |next.results| == i + 1
      ensures KeepsRows(old(db.jobs), db.jobs) && Counted(reviewLog, old(reviewLog), 0, 0)
      ensures OutboxRuns.Flushes(outboxLog) == OutboxRuns.Flushes(old(outboxLog))
    {
      hide Valid, Reports, Tried, Cards, OutboxRuns.Flushes, ReviewDrain.Claims, ReviewDrain.Purges;
      TurnIsReady(batch, read, since, i, false);
      ghost var rows := db.deliveries;
      Serve(traffic.before(i));
      var ok, called := DeliverOne(batch, read, since, i, traffic.outcome(i), traffic.during(i));
      ReportGrows(read, rows, db.deliveries, batch, t, ok, called);
      CardsGrow(read, t, batch[i], ok, called);
      next := t.Add(batch[i], ok, called);
    }

    /** Reads a batch and gives its first rows a turn each, all of them when there is no limit. */
    method FlushTurns(traffic: Traffic, limit: Option<nat>)
      returns (batch: seq<nat>, read: map<nat, Outbox.Delivery>, ghost since: int, t: Tally)
      requires Valid() && sender.Idle?
      modifies this`reviewLog, this`reviewer, this`outboxLog, this`sender, this`teamsLog, this`cards
      modifies db`jobs, db`nextId, db`installations, db`nextInstallation
      modifies db`audits, db`nextAudit, db`deliveries, db`nextDelivery, db`clock
      ensures read == old(db.deliveries) && old(db.clock) <= since <= db.clock && reviewer == old(reviewer)
      ensures Outbox.IsBatch(read, since, 25, batch)
      ensures |t.results| == if limit.Some? then Min(limit.value, |batch|) else |batch|
      ensures Midway(batch, read, since, |t.results|, t) && |cards| - |old(cards)| == Cards(read, t.calls)
      ensures KeepsRows(old(db.jobs), db.jobs) && Counted(reviewLog, old(reviewLog), 0, 0)
      ensures OutboxRuns.Flushes(outboxLog) == OutboxRuns.Flushes(old(outboxLog)) + 1
    {
      hide OutboxRuns.Flushes, Midway, Valid, At, Reports, ReviewDrain.Claims, ReviewDrain.Purges;
      batch, read, since := ReadBatch();
      t := Tally(0, 0, [], []);
      var turns := if limit.Some? then Min(limit.value, |batch|) else |batch|;
      for i := 0 to turns
        invariant Midway(batch, read, since, i, t) && |t.results| == i
        invariant db.clock >= since && reviewer == old(reviewer)
        invariant |cards| - |old(cards)| == Cards(read, t.calls)
        invariant KeepsRows(old(db.jobs), db.jobs) && Counted(reviewLog, old(reviewLog), 0, 0)
        invariant OutboxRuns.Flushes(outboxLog) == OutboxRuns.Flushes(old(outboxLog)) + 1
      {
        t := Turn(batch, read, since, i, t, traffic);
      }
    }

    /** The flush of one batch, with the API at work meanwhile: every row of it has exactly one
        turn, all other rows there were stay as they are, calls are only made for rows that can
        be sent, those for cards are put on record, and the counts add up to the batch. */
    method FlushOutbox(traffic: Traffic) returns (batch: seq<nat>, t: Tally)
      requires Valid() && sender.Idle?
      modifies this`reviewLog, this`reviewer, this`outboxLog, this`sender, this`teamsLog, this`cards
      modifies db`jobs, db`nextId, db`installations, db`nextInstallation
      modifies db`audits, db`nextAudit, db`deliveries, db`nextDelivery, db`clock
      ensures Valid() && sender.Idle? && reviewer == old(reviewer) && db.clock >= old(db.clock)
      ensures exists now :: old(db.clock) <= now && Outbox.IsBatch(old(db.deliveries), now, 25, batch)
      ensures |t.results| == |batch| && Reports(old(db.deliveries), db.deliveries, batch, t)
      ensures |cards| - |old(cards)| == Cards(old(db.deliveries), t.calls)
      ensures KeepsRows(old(db.jobs), db.jobs) && Counted(reviewLog, old(reviewLog), 0, 0)
      ensures OutboxRuns.Flushes(outboxLog) == OutboxRuns.Flushes(old(outboxLog)) + 1
    {
      hide OutboxRuns.Flushes, ReviewLog, OutboxLog, Teams.Run, Welcome, Reports, Outbox.IsBatch, Counted;
      var read;
      ghost var since;
      batch, read, since, t := FlushTurns(traffic, None);
    }

    /** A card is only ever sent to a destination whose latest word was an administrator's enable. */
    lemma CardsGoToEnabledDestinations(row: Outbox.Delivery)
      requires Valid() && row.channel.Teams? && Permitted(row)
      ensures row.target.Some? && row.target.value in db.installations
      ensures Teams.LastWordIsEnable(settings.allowedTenants, teamsLog, db.installations[row.target.value].at)
    {
      Teams.EnabledExactlyByLastWord(settings.allowedTenants, teamsLog, db.installations[row.target.value].at);
      assert Teams.EnabledAt(db.Destinations(), db.installations[row.target.value].at);
    }

    // ---------- Destinations ----------

    /** A Teams activity, when Teams is configured; one from a tenant that is not allowed is
        audited. */
    method ReceiveActivity(a: Teams.Activity) returns (h: Option<Handling>)
      requires Valid()
      modifies this`teamsLog, this`outboxLog, db`installations, db`nextInstallation
      modifies db`audits, db`nextAudit, db`deliveries, db`nextDelivery, db`clock
      ensures Valid() && db.clock >= old(db.clock)
      ensures h.None? <==> !settings.teamsEnabled
      ensures h.None? ==> teamsLog == old(teamsLog) && outboxLog == old(outboxLog)
      ensures h.Some? ==> exists now :: teamsLog == old(teamsLog) + [Teams.Lifecycle(now, a)]
      ensures h.Some? && h.value.Discovered? ==>
                (h.value.enabled <==> Teams.LastWordIsEnable(settings.allowedTenants, old(teamsLog), a.at))
      ensures KeepsDeliveries(old(db.deliveries), db.deliveries)
      ensures h == Some(NotAllowed) ==> a.at.tenant !in settings.allowedTenants && Refused(old(db.nextAudit))
      ensures OutboxRuns.Flushes(outboxLog) == OutboxRuns.Flushes(old(outboxLog))
    {
      if !settings.teamsEnabled {
        return None;
      }
      var handling := HandleLogged(a);
      if handling.NotAllowed? {
        var event := Audit("teams.auth_failed", "teams", Refusal());
      }
      h := Some(handling);
    }

    function Refusal(): Json {
      Obj(map["reason" := Str("Teams tenant is not allowed")])
    }

    ghost predicate Refused(event: nat)
      reads db`audits, db`clock
    {
      Recorded(event, "teams.auth_failed", "teams", Refusal())
    }

    method HandleLogged(a: Teams.Activity) returns (h: Handling)
      requires Valid()
      modifies this`teamsLog, db`installations, db`nextInstallation, db`audits, db`nextAudit, db`clock
      ensures Valid() && db.clock >= old(db.clock)
      ensures teamsLog == old(teamsLog) + [Teams.Lifecycle(db.clock, a)]
      ensures h.NotAllowed? <==> a.at.tenant !in settings.allowedTenants
      ensures h.NotAllowed? ==> db.nextAudit == old(db.nextAudit)
      ensures h.Discovered? ==> (h.enabled <==> Teams.LastWordIsEnable(settings.allowedTenants, old(teamsLog), a.at))
    {
      hide ReviewRuns.Valid, ReviewRuns.Run, OutboxRuns.Valid, OutboxRuns.Run, Welcome, Teams.LastWordIsEnable,
        Teams.EnabledAt, Teams.Handled, Teams.Inv, Teams.Run;
      Teams.HistoriesKeepInv(settings.allowedTenants, teamsLog);
      Teams.EnabledExactlyByLastWord(settings.allowedTenants, teamsLog, a.at);
      h := teams.HandleLifecycle(a);
      LogTeams(Teams.Lifecycle(db.clock, a), old(db.Destinations()));
    }

    /** The administrator's switch; a change is audited. */
    method UpdateInstallation(id: nat, enabled: bool, actor: string) returns (done: bool)
      requires Valid()
      modifies this`teamsLog, this`outboxLog, db`installations
      modifies db`audits, db`nextAudit, db`deliveries, db`nextDelivery, db`clock
      ensures Valid() && db.clock >= old(db.clock)
      ensures exists now :: teamsLog == old(teamsLog) + [Teams.Toggle(now, id, enabled)]
      ensures done <==> id in old(db.installations) && (enabled ==> old(db.installations)[id].active)
      ensures done ==> id in db.installations && db.installations[id].enabled == enabled
      ensures done ==>
                var payload := Obj(map["installation_id" := Num(Decimal(id)), "enabled" := Bool(enabled)]);
                && Recorded(old(db.nextAudit), "teams.installation_updated", actor, payload)
                && outboxLog == old(outboxLog) +
                     Forwarded(old(db.nextAudit), "teams.installation_updated", actor, payload)
      ensures KeepsDeliveries(old(db.deliveries), db.deliveries)
      ensures !done ==>
                && db.deliveries == old(db.deliveries) && db.installations == old(db.installations)
                && db.audits == old(db.audits) && outboxLog == old(outboxLog)
      ensures OutboxRuns.Flushes(outboxLog) == OutboxRuns.Flushes(old(outboxLog))
    {
      hide ReviewRuns.Valid, ReviewRuns.Run, OutboxRuns.Valid, OutboxRuns.Run, Welcome, Teams.Run;
      done := db.SetInstallationEnabled(id, enabled);
      LogTeams(Teams.Toggle(db.clock, id, enabled), old(db.Destinations()));
      if done {
        var event := Audit("teams.installation_updated", actor,
                           Obj(map["installation_id" := Num(Decimal(id)), "enabled" := Bool(enabled)]));
      }
    }

    /** The API at work: submissions, activities and switches, one after the other. The rows
        there were stay as they are, and so does what the worker is doing. */
    method Serve(actions: seq<Action>)
      requires Valid()
      modifies this`reviewLog, this`reviewer, this`outboxLog, this`teamsLog
      modifies db`jobs, db`nextId, db`installations, db`nextInstallation
      modifies db`audits, db`nextAudit, db`deliveries, db`nextDelivery, db`clock
      ensures Valid() && reviewer == old(reviewer) && db.clock >= old(db.clock)
      ensures KeepsRows(old(db.jobs), db.jobs) && KeepsDeliveries(old(db.deliveries), db.deliveries)
      ensures forall i :: 0 <= i < |actions| ==> Submitted(actions[i])
      ensures |teamsLog| == |old(teamsLog)| + Words(actions)
      ensures old(reviewLog) <= reviewLog && Counted(reviewLog, old(reviewLog), 0, 0)
      ensures OutboxRuns.Flushes(outboxLog) == OutboxRuns.Flushes(old(outboxLog))
    {
      hide Valid, OutboxRuns.Flushes, ReviewDrain.Claims, ReviewDrain.Purges, Review.Taken;
      for i := 0 to |actions|
        invariant Valid() && reviewer == old(reviewer) && db.clock >= old(db.clock)
        invariant KeepsRows(old(db.jobs), db.jobs) && KeepsDeliveries(old(db.deliveries), db.deliveries)
        invariant forall k :: 0 <= k < i ==> Submitted(actions[k])
        invariant |teamsLog| == |old(teamsLog)| + Words(actions[..i])
        invariant old(reviewLog) <= reviewLog && Counted(reviewLog, old(reviewLog), 0, 0)
        invariant OutboxRuns.Flushes(outboxLog) == OutboxRuns.Flushes(old(outboxLog))
      {
        ghost var before := db.jobs;
        ServeOne(actions[i]);
        assert actions[..i + 1][..i] == actions[..i] && actions[..i + 1][i] == actions[i];
        forall k | 0 <= k < i ensures Submitted(actions[k]) {
          StaysTaken(before, actions[k]);
        }
      }
      assert actions[..|actions|] == actions;
    }

    /** A submission has its key in the job table. */
    ghost predicate Submitted(action: Action)
      reads db`jobs
    {
      action.Submits? ==> Review.Taken(db.jobs, action.key)
    }

    lemma StaysTaken(before: map<nat, Review.Job>, action: Action)
      requires KeepsRows(before, db.jobs) && (action.Submits? ==> Review.Taken(before, action.key))
      ensures Submitted(action)
    {
      if action.Submits? {
        var id :| id in before && before[id].key == action.key;
        assert id in db.jobs && db.jobs[id].key == action.key;
      }
    }

    /** How many of the actions enter the history of destinations. */
    ghost function Words(actions: seq<Action>): nat {
      if actions == [] then 0
      else
        var last := actions[|actions| - 1];
        Words(actions[..|actions| - 1]) +
        if last.Switches? || (last.Receives? && settings.teamsEnabled) then 1 else 0
    }

    ghost predicate KeepsRows(before: map<nat, Review.Job>, after: map<nat, Review.Job>) {
      forall id :: id in before ==> id in after && after[id] == before[id]
    }

    method ServeOne(action: Action)
      requires Valid()
      modifies this`reviewLog, this`reviewer, this`outboxLog, this`teamsLog
      modifies db`jobs, db`nextId, db`installations, db`nextInstallation
      modifies db`audits, db`nextAudit, db`deliveries, db`nextDelivery, db`clock
      ensures Valid() && reviewer == old(reviewer) && db.clock >= old(db.clock)
      ensures KeepsRows(old(db.jobs), db.jobs) && KeepsDeliveries(old(db.deliveries), db.deliveries)
      ensures Submitted(action)
      ensures action.Switches? ==>
                exists now :: teamsLog == old(teamsLog) + [Teams.Toggle(now, action.id, action.enabled)]
      ensures action.Receives? && settings.teamsEnabled ==>
                exists now :: teamsLog == old(teamsLog) + [Teams.Lifecycle(now, action.activity)]
      ensures action.Submits? || (action.Receives? && !settings.teamsEnabled) ==> teamsLog == old(teamsLog)
      ensures old(reviewLog) <= reviewLog && Counted(reviewLog, old(reviewLog), 0, 0)
      ensures OutboxRuns.Flushes(outboxLog) == OutboxRuns.Flushes(old(outboxLog))
    {
      hide Valid, ReviewDrain.Claims, ReviewDrain.Purges, OutboxRuns.Flushes, Recorded, Forwarded, Stored, StoredAs,
        Teams.LastWordIsEnable, Teams.MayToggle, Decimal;
      match action
      case Submits(key, request, actor) => var r := SubmitReview(key, request, actor);
      case Receives(activity) => var h := ReceiveActivity(activity);
      case Switches(id, enabled, actor) => var done := UpdateInstallation(id, enabled, actor);
    }

    // ---------- The worker ----------

    /** The worker goes down, in the middle of anything or at a stop. */
    ghost method Crash()
      requires Valid()
      modifies this`reviewLog, this`reviewer, this`outboxLog, this`sender
      ensures Valid() && reviewer.Down? && sender.Down?
      ensures reviewLog == old(reviewLog) + [ReviewRuns.Crash(db.clock)] && Counted(reviewLog, old(reviewLog), 0, 0)
      ensures OutboxRuns.Flushes(outboxLog) == OutboxRuns.Flushes(old(outboxLog))
    {
      hide ReviewRuns.Valid, ReviewRuns.Run, OutboxRuns.Valid, OutboxRuns.Run, Teams.Run;
      LogReview(ReviewRuns.Crash(db.clock), db.Reviews(), db.clock);
      LogOutbox(OutboxRuns.Crash(db.clock), db.deliveries, OutboxRuns.Down, db.clock);
    }

    /** A round that ends in a crash: with the claim in hand, or after the commit or retry and the
        first `announced` cards. What has not been announced by then never is: no later round
        claims a job that succeeded. */
    method BreakRound(search: Option<SearchReply>, reply: Reply, card: Json, during: seq<Action>,
                      announced: Option<nat>)
      returns (claimed: Option<nat>, r: Round, ghost first: nat, ghost event: nat)
      requires Valid() && reviewer.Idle?
      modifies this`reviewLog, this`reviewer, this`outboxLog, this`sender, this`teamsLog
      modifies db`jobs, db`evidence, db`decisions, db`findings, db`nextId, db`installations, db`nextInstallation
      modifies db`audits, db`nextAudit, db`deliveries, db`nextDelivery, db`clock
      ensures Valid() && reviewer.Down? && sender.Down?
      ensures Counted(reviewLog, old(reviewLog), if claimed.Some? then 1 else 0, 0)
      ensures claimed.Some? && announced.None? ==> Orphaned(claimed.value)
      ensures claimed.Some? && announced.Some? ==> !r.NothingDue? && r.id == claimed.value
      ensures claimed.Some? && announced.Some? ==> BreaksOff(r, first, event, announced.value)
      ensures OutboxRuns.Flushes(outboxLog) == OutboxRuns.Flushes(old(outboxLog))
    {
      hide OutboxRuns.Flushes, ReviewDrain.Claims, ReviewDrain.Purges, ReviewLog, OutboxLog, Teams.Run, Welcome,
        BreaksOff, Database.Waits;
      r, first, event := NothingDue, 0, 0;
      claimed := ClaimLogged();
      if claimed.Some? {
        Serve(during);
        if announced.Some? {
          r, first, event := BreakReport(claimed.value, search, reply, card, announced.value);
        }
      }
      Crash();
    }

    method BreakReport(id: nat, search: Option<SearchReply>, reply: Reply, card: Json, announced: nat)
      returns (r: Round, ghost first: nat, ghost event: nat)
      requires Valid() && Holds(id)
      modifies this`reviewLog, this`reviewer, this`outboxLog
      modifies db`jobs, db`evidence, db`decisions, db`findings, db`nextId
      modifies db`deliveries, db`nextDelivery, db`clock
      ensures Valid() && !r.NothingDue? && r.id == id && BreaksOff(r, first, event, announced)
      ensures |reviewLog| == |old(reviewLog)| + 1 && Counted(reviewLog, old(reviewLog), 0, 0)
      ensures RoundEnds(old(db.jobs)[id].request, search, reply, r, reviewLog[|old(reviewLog)|])
      ensures OutboxRuns.Flushes(outboxLog) == OutboxRuns.Flushes(old(outboxLog))
    {
      hide OutboxRuns.Flushes, Counted, RoundEnds, Valid, Announced, CardsFrom;
      r := Settle(id, search, reply);
      first, event := db.nextDelivery, db.nextAudit;
      if r.Succeeded? {
        var targets := EnqueueNotifications(card, Some(announced));
        assert Stands(id, r.decision, reply.verdict, r.model);
      }
    }

    /** A commit stands, but only the first `announced` cards are out, and no audit event; a retry
        goes without its audit event. */
    ghost predicate BreaksOff(r: Round, first: nat, event: nat, announced: nat)
      reads db`jobs, db`decisions, db`installations, db`nextDelivery, db`nextAudit
    {
      && (r.Succeeded? ==> exists verdict :: Stands(r.id, r.decision, verdict, r.model))
      && db.nextDelivery == first + (if r.Succeeded? then Min(announced, |Audience()|) else 0)
      && db.nextAudit == event
    }

    /** A row left running with no worker. */
    ghost predicate Orphaned(id: nat)
      reads this, db
    {
      id in db.jobs && db.jobs[id].status == Review.Running && reviewer.Down?
    }

    /** A flush that ends in a crash, after some turns and perhaps with the next call made. */
    method BreakFlush(traffic: Traffic, turns: nat, calling: bool)
      requires Valid() && sender.Idle?
      modifies this`reviewLog, this`reviewer, this`outboxLog, this`sender, this`teamsLog, this`cards
      modifies db`jobs, db`nextId, db`installations, db`nextInstallation
      modifies db`audits, db`nextAudit, db`deliveries, db`nextDelivery, db`clock
      ensures Valid() && reviewer.Down? && sender.Down? && KeepsRows(old(db.jobs), db.jobs)
      ensures Counted(reviewLog, old(reviewLog), 0, 0)
      ensures OutboxRuns.Flushes(outboxLog) == OutboxRuns.Flushes(old(outboxLog)) + 1
    {
      hide OutboxRuns.Flushes, ReviewDrain.Claims, ReviewDrain.Purges, ReviewLog, OutboxLog, Teams.Run, Welcome,
        Reports, Cards, CardOf;
      var read;
      ghost var since;
      var batch, t;
      batch, read, since, t := FlushTurns(traffic, Some(turns));
      if calling && turns < |batch| {
        TurnIsReady(batch, read, since, turns, false);
        if Permitted(read[batch[turns]]) {
          LogCard(read[batch[turns]]);
          LogCall(batch, read, since, turns);
        }
      }
      Crash();
    }

    /** The worker comes up: claims abandoned for longer than fifteen minutes are put back. */
    method StartUp() returns (recovered: nat)
      requires Valid() && reviewer.Down? && sender.Down?
      modifies this`reviewLog, this`reviewer, this`outboxLog, this`sender, db`jobs, db`clock
      ensures Valid() && reviewer.Idle? && sender.Idle? && db.clock >= old(db.clock)
      ensures reviewLog == old(reviewLog) + [ReviewRuns.Start(db.clock)] && Counted(reviewLog, old(reviewLog), 0, 0)
      ensures OutboxRuns.Flushes(outboxLog) == OutboxRuns.Flushes(old(outboxLog))
      ensures recovered == |set id | id in old(db.jobs) && Review.Abandoned(old(db.jobs)[id], db.clock)|
    {
      hide ReviewRuns.Valid, ReviewRuns.Run, OutboxRuns.Valid, OutboxRuns.Run, OutboxRuns.Flushes, Teams.Run, Welcome;
      recovered := db.RecoverAbandonedJobs();
      LogReview(ReviewRuns.Start(db.clock), old(db.Reviews()), old(db.clock));
      LogOutbox(OutboxRuns.Start(db.clock), db.deliveries, OutboxRuns.Idle, old(db.clock));
    }

    ghost method LogTeams(e: Teams.Event, before: Teams.Store)
      requires Teams.Run(settings.allowedTenants, teamsLog) == before
      requires db.Destinations() == Teams.Apply(before, settings.allowedTenants, e)
      requires Welcome(settings.allowedTenants, cards, teamsLog)
      modifies this`teamsLog
      ensures teamsLog == old(teamsLog) + [e]
      ensures Teams.Run(settings.allowedTenants, teamsLog) == db.Destinations()
      ensures Welcome(settings.allowedTenants, cards, teamsLog)
    {
      Teams.OneMore(settings.allowedTenants, teamsLog, e);
      WelcomeGrows(settings.allowedTenants, cards, teamsLog, teamsLog + [e]);
      teamsLog := teamsLog + [e];
    }

    ghost method LogReview(e: ReviewRuns.Event, before: Review.Store, clock: int)
      requires ReviewLog(Config(), reviewLog, before, reviewer, clock) && clock <= e.at <= db.clock
      requires ReviewRuns.Enabled(Config(), ReviewRuns.World(before, reviewer, clock), e)
      requires db.Reviews() == ReviewRuns.ApplyToStore(Config(), before, reviewer, e)
      modifies this`reviewLog, this`reviewer
      ensures reviewLog == old(reviewLog) + [e] && reviewer == ReviewRuns.ApplyToWorker(before, old(reviewer), e)
      ensures Counted(reviewLog, old(reviewLog), if e.Claim? then 1 else 0, if e.Purge? then 1 else 0)
      ensures ReviewLog(Config(), reviewLog, db.Reviews(), reviewer, db.clock)
    {
      ReviewLogGrows(Config(), reviewLog, e, before, reviewer, clock);
      ReviewDrain.CountsOneMore(reviewLog, e);
      reviewLog := reviewLog + [e];
      reviewer := ReviewRuns.ApplyToWorker(before, reviewer, e);
    }

    method PurgeLogged()
      requires Valid() && reviewer.Idle? && sender.Idle?
      modifies this`reviewLog, this`reviewer, this`outboxLog, this`sender, this`teamsLog, db
      ensures Valid() && reviewer.Idle? && sender.Idle? && db.clock >= old(db.clock)
      ensures reviewLog == old(reviewLog) + [ReviewRuns.Purge(db.clock, db.clock - settings.jobRetentionDays * 86400)]
      ensures Counted(reviewLog, old(reviewLog), 0, 1)
      ensures outboxLog == old(outboxLog) + [OutboxRuns.Purge(db.clock, db.clock - settings.auditRetentionDays * 86400)]
      ensures teamsLog == old(teamsLog) + [Teams.Purge(db.clock, db.clock - settings.teamsRetentionDays * 86400)]
      ensures OutboxRuns.Flushes(outboxLog) == OutboxRuns.Flushes(old(outboxLog))
    {
      hide ReviewRuns.Valid, ReviewRuns.Run, OutboxRuns.Valid, OutboxRuns.Run, Teams.Run,
        Review.Purged, Teams.Purged, Outbox.KeptRows;
      ghost var reviews, rows, destinations, clock := db.Reviews(), db.deliveries, db.Destinations(), db.clock;
      var counts := db.Purge();
      LogReview(ReviewRuns.Purge(db.clock, db.clock - settings.jobRetentionDays * DAY), reviews, clock);
      LogOutbox(OutboxRuns.Purge(db.clock, db.clock - settings.auditRetentionDays * DAY), rows, sender, clock);
      LogTeams(Teams.Purge(db.clock, db.clock - settings.teamsRetentionDays * DAY), destinations);
    }
  }

  /** What the world does during one pass of the worker loop; `now` is the monotonic clock. */
  datatype Pass = Pass(
    now: nat, probe: bool, before: seq<Action>, during: seq<Action>, search: Option<SearchReply>, reply: Reply,
    card: Json, traffic: Traffic, crash: Option<Moment>)

  /** The latest probe of the model after some passes: its time and its answer. A pass probes
      when the interval since the one before has gone by. */
  function LatestProbe(passes: seq<Pass>, interval: nat): Option<(nat, bool)> {
    if passes == [] then None
    else
      var before, pass := LatestProbe(passes[..|passes| - 1], interval), passes[|passes| - 1];
      if before.None? || pass.now >= before.value.0 + interval then Some((pass.now, pass.probe)) else before
  }

  /** The first pass probes; at any pass the latest probe is one of a pass so far, and less than
      the interval old unless it is the pass's own; no pass probes before the interval is over. */
  lemma {:induction false} ProbesKeepUp(passes: seq<Pass>, interval: nat)
    requires passes != []
    ensures var latest, now := LatestProbe(passes, interval), passes[|passes| - 1].now;
            && latest.Some? && (now < latest.value.0 + interval || latest.value.0 == now)
            && exists i :: 0 <= i < |passes| && latest.value == (passes[i].now, passes[i].probe)
    ensures var before := LatestProbe(passes[..|passes| - 1], interval);
            before.Some? && passes[|passes| - 1].now < before.value.0 + interval ==>
              LatestProbe(passes, interval) == before
  {
    var last := |passes| - 1;
    if last > 0 {
      ProbesKeepUp(passes[..last], interval);
      var before := LatestProbe(passes[..last], interval);
      var i :| 0 <= i < last && before.value == (passes[..last][i].now, passes[..last][i].probe);
      assert passes[..last][i] == passes[i];
    }
    assert LatestProbe(passes[..0], interval) == None;
    var latest := LatestProbe(passes, interval);
    assert || latest == Some((passes[last].now, passes[last].probe))
           || (last > 0 && latest == LatestProbe(passes[..last], interval));
  }

  predicate Ready(passes: seq<Pass>, interval: nat) {
    LatestProbe(passes, interval).GetOr((0, true)).1
  }

  /** The times of the purges: a pass purges when a day has gone by since the purge before. */
  function PurgeTimes(passes: seq<Pass>): seq<int> {
    if passes == [] then []
    else
      var before, now := PurgeTimes(passes[..|passes| - 1]), passes[|passes| - 1].now;
      if before == [] || now >= before[|before| - 1] + DAY then before + [now] else before
  }

  /** Purges are at least a day apart, and at any pass the latest is less than a day old. */
  lemma {:induction false} PurgesAreDaily(passes: seq<Pass>)
    requires passes != []
    ensures var times := PurgeTimes(passes);
            && times != [] && times[0] == passes[0].now && times[|times| - 1] > passes[|passes| - 1].now - 86400
            && forall i :: 0 < i < |times| ==> times[i] - times[i - 1] >= 86400
  {
    if |passes| > 1 {
      PurgesAreDaily(passes[..|passes| - 1]);
    }
  }

  /** How many rounds found a job. */
  function Worked(rounds: seq<Option<Round>>): nat {
    if rounds == [] then 0
    else
      var last := rounds[|rounds| - 1];
      Worked(rounds[..|rounds| - 1]) + if last.Some? && !last.value.NothingDue? then 1 else 0
  }

  lemma NoPassYet(interval: nat)
    ensures LatestProbe([], interval) == None && PurgeTimes([]) == [] && Worked([]) == 0
  {
  }

  lemma OnePassMore(passes: seq<Pass>, i: nat, interval: nat, rounds: seq<Option<Round>>, round: Option<Round>)
    requires i < |passes|
    ensures passes[..i + 1][..i] == passes[..i] && passes[..i + 1][i] == passes[i]
    ensures LatestProbe(passes[..i + 1], interval) ==
            var before := LatestProbe(passes[..i], interval);
            if before.None? || passes[i].now >= before.value.0 + interval then Some((passes[i].now, passes[i].probe))
            else before
    ensures PurgeTimes(passes[..i + 1]) ==
            var before := PurgeTimes(passes[..i]);
            if before == [] || passes[i].now >= before[|before| - 1] + DAY then before + [passes[i].now] else before
    ensures Worked(rounds + [round]) == Worked(rounds) + Worked([round])
  {
    assert passes[..i + 1][..i] == passes[..i];
    assert (rounds + [round])[..|rounds|] == rounds && [round][..0] == [];
  }

  /** What the logs have grown by: claims, purges and flushes, the claims and flushes up to one
      more where there is slack for a pass that crashed. */
  ghost predicate Grown(engine: Container, log: seq<ReviewRuns.Event>, outbox: seq<OutboxRuns.Event>,
                        claims: nat, purges: nat, flushes: nat, slack: nat)
    reads engine
  {
    && claims <= ReviewDrain.Claims(engine.reviewLog) - ReviewDrain.Claims(log) <= claims + slack
    && ReviewDrain.Purges(engine.reviewLog) == ReviewDrain.Purges(log) + purges
    && flushes <= OutboxRuns.Flushes(engine.outboxLog) - OutboxRuns.Flushes(outbox) <= flushes + slack
  }

  /** One pass of the worker loop. A pass that crashes has made at most one claim and begun at
      most one flush. */
  method RunPass(engine: Container, pass: Pass, ready: bool, purging: bool) returns (round: Option<Round>)
    requires engine.Valid() && engine.reviewer.Idle? && engine.sender.Idle?
    modifies engine, engine.db
    ensures engine.Valid()
    ensures pass.crash.Some? ==> engine.reviewer.Down? && engine.sender.Down?
    ensures pass.crash.Some? ==> Grown(engine, old(engine.reviewLog), old(engine.outboxLog), 0, 0, 0, 1)
    ensures pass.crash.None? ==> engine.reviewer.Idle? && engine.sender.Idle? && (round.Some? <==> ready)
    ensures pass.crash.None? ==>
              Grown(engine, old(engine.reviewLog), old(engine.outboxLog), Worked([round]),
                    if purging then 1 else 0, 1, 0)
  {
    hide OutboxRuns.Flushes, ReviewDrain.Claims, ReviewDrain.Purges, Container.Valid, Container.RoundReports,
      Container.RoundEnds, Container.Reports, Container.KeepsRows, Outbox.IsBatch, Database.Waits;
    round := None;
    assert [round][..0] == [];
    engine.Serve(pass.before);
    if pass.crash.Some? {
      BreakPass(engine, pass, pass.crash.value, ready);
      return;
    }
    if ready {
      var r, first, event := engine.ProcessNextJob(pass.search, pass.reply, pass.card, pass.during);
      round := Some(r);
      assert [round][..0] == [];
    }
    var batch, tally := engine.FlushOutbox(pass.traffic);
    if purging {
      engine.PurgeLogged();
    }
  }

  method BreakPass(engine: Container, pass: Pass, moment: Moment, ready: bool)
    requires engine.Valid() && engine.reviewer.Idle? && engine.sender.Idle?
    modifies engine, engine.db
    ensures engine.Valid() && engine.reviewer.Down? && engine.sender.Down?
    ensures Grown(engine, old(engine.reviewLog), old(engine.outboxLog), 0, 0, 0, 1)
  {
    hide OutboxRuns.Flushes, ReviewDrain.Claims, ReviewDrain.Purges, Container.Valid, Container.RoundReports,
      Container.RoundEnds, Database.Waits;
    if ready && !moment.DuringFlush? {
      var announced := if moment.Announcing? then Some(moment.cards) else None;
      var claimed, r, first, event := engine.BreakRound(pass.search, pass.reply, pass.card, pass.during, announced);
    } else {
      if ready {
        var r, first, event := engine.ProcessNextJob(pass.search, pass.reply, pass.card, pass.during);
      }
      if moment.DuringFlush? {
        engine.BreakFlush(pass.traffic, moment.turns, moment.calling);
      } else {
        engine.Crash();
      }
    }
  }

  /** The worker: recover, then pass after pass one job when the model answered its latest
      probe, one flush, and a purge when a day has gone by, until it stops or crashes. Whatever
      the API does meanwhile, the engine's logs stay runs; for the passes that went through they
      hold one claim per round that found a job, one flush per pass, and the scheduled purges.
      The worker is down at the end, ready to be started again. */
  method RunWorker(engine: Container, firstProbe: bool, passes: seq<Pass>, probeInterval: nat)
    returns (ok: bool, rounds: seq<Option<Round>>)
    requires engine.Valid() && engine.reviewer.Down? && engine.sender.Down?
    modifies engine, engine.db
    ensures engine.Valid() && engine.reviewer.Down? && engine.sender.Down?
    ensures ok <==> firstProbe
    ensures !ok ==> engine.reviewLog == old(engine.reviewLog) && engine.outboxLog == old(engine.outboxLog)
    ensures ok ==> |rounds| <= |passes| && forall i :: 0 <= i < |rounds| ==> passes[i].crash.None?
    ensures ok && |rounds| < |passes| ==> passes[|rounds|].crash.Some?
    ensures ok ==> forall i :: 0 <= i < |rounds| ==> (rounds[i].Some? <==> Ready(passes[..i + 1], probeInterval))
    ensures ok ==>
              Grown(engine, old(engine.reviewLog), old(engine.outboxLog), Worked(rounds),
                    |PurgeTimes(passes[..|rounds|])|, |rounds|, if |rounds| < |passes| then 1 else 0)
  {
    hide LatestProbe, PurgeTimes, Worked, OutboxRuns.Flushes, ReviewDrain.Claims, ReviewDrain.Purges,
      Container.Valid, Review.Abandoned;
    ok, rounds := firstProbe, [];
    if !firstProbe {
      return;
    }
    var recovered := engine.StartUp();
    var nextProbe, nextPurge, ready := 0, 0, true;
    NoPassYet(probeInterval);
    assert passes[..0] == [];
    for i := 0 to |passes|
      invariant engine.Valid() && engine.reviewer.Idle? && engine.sender.Idle?
      invariant |rounds| == i && forall k :: 0 <= k < i ==> passes[k].crash.None?
      invariant forall k :: 0 <= k < i ==> (rounds[k].Some? <==> Ready(passes[..k + 1], probeInterval))
      invariant var probe := LatestProbe(passes[..i], probeInterval);
                if probe.None? then nextProbe == 0
                else nextProbe == probe.value.0 + probeInterval && ready == probe.value.1
      invariant var times := PurgeTimes(passes[..i]);
                if times == [] then nextPurge == 0 else nextPurge == times[|times| - 1] + DAY
      invariant Grown(engine, old(engine.reviewLog), old(engine.outboxLog), Worked(rounds),
                      |PurgeTimes(passes[..i])|, i, 0)
    {
      var pass := passes[i];
      if pass.now >= nextProbe {
        ready := pass.probe;
        nextProbe := pass.now + probeInterval;
      }
      var round := RunPass(engine, pass, ready, pass.now >= nextPurge);
      if pass.crash.Some? {
        return;
      }
      if pass.now >= nextPurge {
        nextPurge := pass.now + DAY;
      }
      OnePassMore(passes, i, probeInterval, rounds, round);
      rounds := rounds + [round];
    }
    engine.Crash();
  }
}
