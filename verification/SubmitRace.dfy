/** Any number of clients submitting under idempotency keys: the look-up, the insert and the
    look-up after a rejected insert are separate steps, interleaved with each other, the worker
    and retention. */
module SubmitRace {
  import opened Review
  import ReviewRuns

  datatype Answer = Accepted(id: nat, created: bool) | Conflict | Rejected

  datatype Client =
    | Missed(key: string, request: Request)   // the look-up found no row
    | Collided(key: string, request: Request) // the insert met the unique index

  /** What a client submitted and was answered; `compared` unless the answer came from the
      look-up after a collision. */
  datatype Reply = Reply(key: string, request: Request, compared: bool, answer: Answer)

  datatype World = World(db: Store, clients: map<nat, Client>, replies: seq<Reply>)

  datatype Event =
    | LookUp(client: nat, key: string, request: Request)
    | Insert(client: nat, maxAttempts: nat, at: int)
    | LookUpAgain(client: nat)
    | Elsewhere(after: Store)

  /** What the worker and retention may do to the job table: rows keep their key and request,
      rows disappear, none appears. */
  ghost predicate KeepsIdentities(s: Store, s': Store) {
    && s'.nextId >= s.nextId
    && forall id :: id in s'.jobs ==>
         id in s.jobs && s'.jobs[id].key == s.jobs[id].key && s'.jobs[id].request == s.jobs[id].request
  }

  ghost predicate Holder(jobs: map<nat, Job>, key: string, id: nat) {
    id in jobs && jobs[id].key == key
  }

  ghost predicate Step(w: World, e: Event, w': World) {
    match e
    case LookUp(client, key, request) =>
      && client !in w.clients
      && if Taken(w.db.jobs, key) then
           && w'.db == w.db && w'.clients == w.clients
           && exists id :: Holder(w.db.jobs, key, id) && w'.replies == w.replies + [Reply(key, request, true,
                if w.db.jobs[id].request == request then Accepted(id, false) else Conflict)]
         else
           w' == w.(clients := w.clients[client := Missed(key, request)])
    case Insert(client, maxAttempts, at) =>
      && client in w.clients && w.clients[client].Missed?
      && var key, request := w.clients[client].key, w.clients[client].request;
         if Taken(w.db.jobs, key) then
           w' == w.(clients := w.clients[client := Collided(key, request)])
         else
           w' == World(Created(w.db, key, request, maxAttempts, at), w.clients - {client},
                       w.replies + [Reply(key, request, true, Accepted(w.db.nextId, true))])
    case LookUpAgain(client) =>
      && client in w.clients && w.clients[client].Collided?
      && var key, request := w.clients[client].key, w.clients[client].request;
      && w'.db == w.db && w'.clients == w.clients - {client}
      && if Taken(w.db.jobs, key) then
           exists id :: Holder(w.db.jobs, key, id) &&
             w'.replies == w.replies + [Reply(key, request, false, Accepted(id, false))]
         else
           w'.replies == w.replies + [Reply(key, request, false, Rejected)]
    case Elsewhere(after) =>
      KeepsIdentities(w.db, after) && w' == w.(db := after)
  }

  /** A run: the worlds passed through, from the empty one on. */
  ghost predicate IsRun(worlds: seq<World>, es: seq<Event>) {
    && |worlds| == |es| + 1 && worlds[0] == World(EMPTY, map[], [])
    && forall i :: 0 <= i < |es| ==> Step(worlds[i], es[i], worlds[i + 1])
  }

  /** The row has the reply's key, and the reply's request where it was compared. */
  ghost predicate ReplyFits(r: Reply, job: Job) {
    job.key == r.key && (r.compared ==> job.request == r.request)
  }

  ghost predicate Inv(w: World) {
    && ReviewRuns.KeysUnique(w.db.jobs)
    && (forall id :: id in w.db.jobs ==> id < w.db.nextId)
    && (forall i :: 0 <= i < |w.replies| && w.replies[i].answer.Accepted? ==>
          && w.replies[i].answer.id < w.db.nextId
          && (w.replies[i].answer.id in w.db.jobs ==> ReplyFits(w.replies[i], w.db.jobs[w.replies[i].answer.id])))
  }

  lemma StepKeepsInv(w: World, e: Event, w': World)
    requires Inv(w) && Step(w, e, w')
    ensures Inv(w')
  {
    match e
    case Insert(client, _, _) =>
      var key := w.clients[client].key;
      if !Taken(w.db.jobs, key) {
        assert forall id :: id in w.db.jobs ==> w.db.jobs[id].key != key;
      }
    case _ =>
  }

  lemma {:induction false} RunKeepsInv(worlds: seq<World>, es: seq<Event>)
    requires IsRun(worlds, es)
    ensures Inv(worlds[|es|])
  {
    if es != [] {
      var n := |es| - 1;
      RunKeepsInv(worlds[..n + 1], es[..n]);
      StepKeepsInv(worlds[n], es[n], worlds[n + 1]);
    }
  }

  /** Under any interleaving there is at most one row per key, and every accepted answer for
      a key names that very row for as long as the named row is stored; where the answer came
      from a comparison or an insert, the row holds the submitted request. */
  lemma AcceptedAnswersNameTheRow(worlds: seq<World>, es: seq<Event>, i: nat)
    requires IsRun(worlds, es) && i < |worlds[|es|].replies| && worlds[|es|].replies[i].answer.Accepted?
    ensures var w, reply := worlds[|es|], worlds[|es|].replies[i];
            && (forall a, b :: Holder(w.db.jobs, reply.key, a) && Holder(w.db.jobs, reply.key, b) ==> a == b)
            && (reply.answer.id in w.db.jobs ==>
                  && (forall id :: Holder(w.db.jobs, reply.key, id) <==> id == reply.answer.id)
                  && (reply.compared ==> w.db.jobs[reply.answer.id].request == reply.request))
  {
    RunKeepsInv(worlds, es);
  }

  /** The worker's transactions and retention are steps of the kind `Elsewhere`. */
  lemma WorkerKeepsIdentities(c: ReviewRuns.Config, s: Store, worker: ReviewRuns.Worker, e: ReviewRuns.Event)
    requires !e.Submit?
    ensures KeepsIdentities(s, ReviewRuns.ApplyToStore(c, s, worker, e))
  {
  }

  // ---------- When a reused key is noticed ----------

  /** The row an answer names does not hold what its client submitted. */
  ghost predicate Mismatched(w: World, r: Reply) {
    r.answer.Accepted? && r.answer.id in w.db.jobs && w.db.jobs[r.answer.id].request != r.request
  }

  ghost predicate AllHonoured(w: World) {
    forall i :: 0 <= i < |w.replies| ==> !Mismatched(w, w.replies[i])
  }

  /** Clients in flight under one key submit the same request. */
  ghost predicate InFlightAgree(w: World) {
    forall a, b :: a in w.clients && b in w.clients && w.clients[a].key == w.clients[b].key ==>
      w.clients[a].request == w.clients[b].request
  }

  /** A client in flight whose key is taken finds its own request there. */
  ghost predicate InFlightFit(w: World) {
    forall a, id :: a in w.clients && Holder(w.db.jobs, w.clients[a].key, id) ==>
      w.db.jobs[id].request == w.clients[a].request
  }

  lemma AgreeingStepIsHonoured(w: World, e: Event, w': World)
    requires Inv(w) && Step(w, e, w') && InFlightAgree(w) && InFlightFit(w) && AllHonoured(w)
    ensures InFlightFit(w') && AllHonoured(w')
  {
  }

  /** Where the submissions in flight under one key always agree, every accepted client finds
      its own request in the row it was answered with, for as long as that row is stored. */
  lemma {:induction false} AgreeingSubmissionsAreHonoured(worlds: seq<World>, es: seq<Event>)
    requires IsRun(worlds, es) && forall i :: 0 <= i < |es| ==> InFlightAgree(worlds[i])
    ensures InFlightFit(worlds[|es|]) && AllHonoured(worlds[|es|])
  {
    if es != [] {
      var n := |es| - 1;
      AgreeingSubmissionsAreHonoured(worlds[..n + 1], es[..n]);
      RunKeepsInv(worlds[..n + 1], es[..n]);
      AgreeingStepIsHonoured(worlds[n], es[n], worlds[n + 1]);
    }
  }

  /** A client in flight that may yet be accepted for a row with another request: its key is
      taken by such a row, or free and a client with another request is about to insert. */
  ghost predicate Contested(w: World, b: nat) {
    && b in w.clients
    && var key, request := w.clients[b].key, w.clients[b].request;
    if Taken(w.db.jobs, key) then exists id :: Holder(w.db.jobs, key, id) && w.db.jobs[id].request != request
    else exists a ::
      a in w.clients && w.clients[a].Missed? && w.clients[a].key == key && w.clients[a].request != request
  }

  /** The clients in flight settle: nothing else happens meanwhile. */
  ghost predicate Settles(worlds: seq<World>, es: seq<Event>) {
    && |worlds| == |es| + 1
    && forall i :: 0 <= i < |es| ==> (es[i].Insert? || es[i].LookUpAgain?) && Step(worlds[i], es[i], worlds[i + 1])
  }

  lemma SettlingStep(w: World, e: Event, w': World)
    requires Inv(w) && (e.Insert? || e.LookUpAgain?) && Step(w, e, w')
    requires AllHonoured(w) && forall b :: !Contested(w, b)
    ensures AllHonoured(w') && forall b :: !Contested(w', b)
  {
    forall b | b in w'.clients ensures !Contested(w', b) {
      assert !Contested(w, b) && b in w.clients;
      SettlingKeepsUncontested(w, e, w', b);
    }
    if e.LookUpAgain? {
      assert !Contested(w, e.client);
    }
  }

  lemma SettlingKeepsUncontested(w: World, e: Event, w': World, b: nat)
    requires Inv(w) && (e.Insert? || e.LookUpAgain?) && Step(w, e, w')
    requires b in w.clients && b in w'.clients && !Contested(w, b)
    ensures !Contested(w', b)
  {
    var key, mine := w.clients[b].key, w.clients[e.client].key;
    if e.Insert? && !Taken(w.db.jobs, mine) && key == mine {
      assert Holder(w'.db.jobs, key, w.db.nextId);
    } else if Taken(w.db.jobs, key) {
      var id :| Holder(w.db.jobs, key, id);
      assert Holder(w'.db.jobs, key, id);
    } else {
      assert !Taken(w'.db.jobs, key);
    }
  }

  lemma {:induction false} UncontestedSettlesWell(worlds: seq<World>, es: seq<Event>)
    requires Settles(worlds, es) && Inv(worlds[0]) && AllHonoured(worlds[0]) && forall b :: !Contested(worlds[0], b)
    ensures Inv(worlds[|es|]) && AllHonoured(worlds[|es|]) && forall b :: !Contested(worlds[|es|], b)
  {
    if es != [] {
      var n := |es| - 1;
      UncontestedSettlesWell(worlds[..n + 1], es[..n]);
      SettlingStep(worlds[n], es[n], worlds[n + 1]);
      StepKeepsInv(worlds[n], es[n], worlds[n + 1]);
    }
  }

  /** A client whose key is taken by a row with another request is accepted for that row. */
  lemma MisfitIsAccepted(w: World, b: nat, id: nat) returns (worlds: seq<World>, es: seq<Event>)
    requires b in w.clients && Holder(w.db.jobs, w.clients[b].key, id) && w.db.jobs[id].request != w.clients[b].request
    ensures Settles(worlds, es) && worlds[0] == w && !AllHonoured(worlds[|es|])
  {
    var key, request := w.clients[b].key, w.clients[b].request;
    var reply := Reply(key, request, false, Accepted(id, false));
    var w1 := w.(clients := w.clients[b := Collided(key, request)]);
    var w2 := World(w.db, w1.clients - {b}, w.replies + [reply]);
    assert w1.clients - {b} == w.clients - {b} && Taken(w.db.jobs, key);
    assert w2.replies[|w.replies|] == reply && Mismatched(w2, reply);
    if w.clients[b].Missed? {
      worlds, es := [w, w1, w2], [Insert(b, 1, 0), LookUpAgain(b)];
    } else {
      assert Step(w, LookUpAgain(b), w2);
      worlds, es := [w, w2], [LookUpAgain(b)];
    }
  }

  lemma ContestedGoesWrong(w: World, b: nat) returns (worlds: seq<World>, es: seq<Event>)
    requires Contested(w, b)
    ensures Settles(worlds, es) && worlds[0] == w && !AllHonoured(worlds[|es|])
  {
    var key, request := w.clients[b].key, w.clients[b].request;
    if Taken(w.db.jobs, key) {
      var id :| Holder(w.db.jobs, key, id) && w.db.jobs[id].request != request;
      worlds, es := MisfitIsAccepted(w, b, id);
    } else {
      var a :| a in w.clients && w.clients[a].Missed? && w.clients[a].key == key && w.clients[a].request != request;
      var w1 := World(Created(w.db, key, w.clients[a].request, 1, 0), w.clients - {a},
                      w.replies + [Reply(key, w.clients[a].request, true, Accepted(w.db.nextId, true))]);
      var more, later := MisfitIsAccepted(w1, b, w.db.nextId);
      worlds, es := [w] + more, [Insert(a, 1, 0)] + later;
    }
  }

  /** From any state in which all is well so far, the clients in flight can settle so that one
      is accepted for a row with another request exactly when one of them is contested. */
  lemma ReuseIsMissedExactly(w: World)
    requires Inv(w) && AllHonoured(w)
    ensures (exists worlds, es :: Settles(worlds, es) && worlds[0] == w && !AllHonoured(worlds[|es|])) <==>
            exists b :: Contested(w, b)
  {
    if b :| Contested(w, b) {
      var worlds, es := ContestedGoesWrong(w, b);
    } else {
      forall worlds, es | Settles(worlds, es) && worlds[0] == w ensures AllHonoured(worlds[|es|]) {
        UncontestedSettlesWell(worlds, es);
      }
    }
  }

  /** Two clients that both missed a free key with different requests are contested. */
  lemma TwoMissesAreContested(w: World, a: nat, b: nat)
    requires a in w.clients && b in w.clients && w.clients[a].Missed? && w.clients[b].Missed?
    requires w.clients[a].key == w.clients[b].key && w.clients[a].request != w.clients[b].request
    requires !Taken(w.db.jobs, w.clients[a].key)
    ensures Contested(w, a) && Contested(w, b)
  {
  }

  /** From the empty table: two clients submit different requests under one key at the same
      time, and the second is accepted for the row of the first. */
  lemma CollisionsAreNotCompared(key: string, r1: Request, r2: Request) returns (worlds: seq<World>, es: seq<Event>)
    requires r1 != r2
    ensures IsRun(worlds, es) && |worlds[|es|].replies| == 2
    ensures var w := worlds[|es|];
            && w.replies[0] == Reply(key, r1, true, Accepted(0, true))
            && w.replies[1] == Reply(key, r2, false, Accepted(0, false))
            && 0 in w.db.jobs && w.db.jobs[0].request == r1 && Mismatched(w, w.replies[1])
  {
    var first := Reply(key, r1, true, Accepted(0, true));
    var second := Reply(key, r2, false, Accepted(0, false));
    var w0 := World(EMPTY, map[], []);
    var w1 := World(EMPTY, map[0 := Missed(key, r1)], []);
    var w2 := World(EMPTY, map[0 := Missed(key, r1), 1 := Missed(key, r2)], []);
    var db := Created(EMPTY, key, r1, 5, 0);
    var w3 := World(db, map[1 := Missed(key, r2)], [first]);
    var w4 := World(db, map[1 := Collided(key, r2)], [first]);
    var w5 := World(db, map[], [first, second]);
    assert Holder(db.jobs, key, 0) && Taken(db.jobs, key);
    assert w1 == w0.(clients := w0.clients[0 := Missed(key, r1)]);
    assert w2 == w1.(clients := w1.clients[1 := Missed(key, r2)]);
    assert w2.clients - {0} == w3.clients && w4.clients - {1} == w5.clients && w3.replies + [second] == w5.replies;
    worlds := [w0, w1, w2, w3, w4, w5];
    es := [LookUp(0, key, r1), LookUp(1, key, r2), Insert(0, 5, 0), Insert(1, 5, 0), LookUpAgain(1)];
  }
}
