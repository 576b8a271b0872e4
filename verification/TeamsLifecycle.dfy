/** Teams destinations: discovery, removal, the administrator's switch, and retention. */
module TeamsLifecycle {

  /** A destination is one conversation of one tenant. */
  datatype Destination = Destination(tenant: string, conversation: string)

  datatype Installation = Installation(
    at: Destination, serviceUrl: string, scope: string, reference: string,
    enabled: bool, active: bool, discoveredAt: int, lastSeenAt: int)

  datatype Kind = Message | InstallationUpdate | ConversationUpdate | OtherKind(name: string)

  datatype Activity = Activity(
    kind: Kind, action: string, at: Destination, serviceUrl: string, scope: string, reference: string)

  datatype Store = Store(rows: map<nat, Installation>, nextId: nat)

  predicate Known(s: Store, d: Destination) {
    exists id :: id in s.rows && s.rows[id].at == d
  }

  function SeenRow(row: Installation, a: Activity, now: int): Installation {
    row.(serviceUrl := a.serviceUrl, scope := if a.scope != "" then a.scope else "personal",
         reference := a.reference, active := true, lastSeenAt := now)
  }

  function NewRow(a: Activity, now: int): Installation {
    Installation(a.at, a.serviceUrl, if a.scope != "" then a.scope else "personal", a.reference, false, true, now, now)
  }

  /** Rediscovery updates the row of the destination; a first discovery adds a disabled row. */
  function Upserted(s: Store, a: Activity, now: int): Store {
    if Known(s, a.at)
    then s.(rows := map id | id in s.rows :: if s.rows[id].at == a.at then SeenRow(s.rows[id], a, now) else s.rows[id])
    else Store(s.rows[s.nextId := NewRow(a, now)], s.nextId + 1)
  }

  function Deactivated(s: Store, d: Destination, now: int): Store {
    s.(rows := map id | id in s.rows ::
         if s.rows[id].at == d then s.rows[id].(active := false, enabled := false, lastSeenAt := now) else s.rows[id])
  }

  /** The switch is refused for an unknown row, and for enabling an inactive one. */
  predicate MayToggle(s: Store, id: nat, enabled: bool) {
    id in s.rows && (enabled ==> s.rows[id].active)
  }

  function Toggled(s: Store, id: nat, enabled: bool, now: int): Store {
    if MayToggle(s, id, enabled) then s.(rows := s.rows[id := s.rows[id].(enabled := enabled, lastSeenAt := now)])
    else s
  }

  /** Inactive and not seen since the cut-off. */
  predicate Gone(row: Installation, cutoff: int) {
    !row.active && row.lastSeenAt < cutoff
  }

  function GoneRows(rows: map<nat, Installation>, cutoff: int): set<nat> {
    set id | id in rows && Gone(rows[id], cutoff)
  }

  /** What a purge deletes: the inactive rows not seen since the cut-off. */
  lemma DeletedRows(rows: map<nat, Installation>, cutoff: int, id: nat)
    ensures id in GoneRows(rows, cutoff) <==> id in rows && !rows[id].active && rows[id].lastSeenAt < cutoff
  {
  }

  function Purged(s: Store, cutoff: int): Store {
    s.(rows := map id | id in s.rows && !Gone(s.rows[id], cutoff) :: s.rows[id])
  }

  predicate Removes(a: Activity) {
    a.kind == InstallationUpdate && a.action == "remove"
  }

  predicate Discovers(a: Activity) {
    a.kind == ConversationUpdate || (a.kind == InstallationUpdate && a.action != "remove")
  }

  /** What a lifecycle activity does; a tenant that is not allowed changes nothing. */
  function Handled(s: Store, allowed: set<string>, a: Activity, now: int): Store {
    if a.at.tenant !in allowed then s
    else if Removes(a) then Deactivated(s, a.at, now)
    else if Discovers(a) then Upserted(s, a, now)
    else s
  }

  // ---------- Histories ----------

  datatype Event =
    | Lifecycle(at: int, activity: Activity)
    | Toggle(at: int, id: nat, enabled: bool)
    | Purge(at: int, cutoff: int)

  function Apply(s: Store, allowed: set<string>, e: Event): Store {
    match e
    case Lifecycle(at, activity) => Handled(s, allowed, activity, at)
    case Toggle(at, id, enabled) => Toggled(s, id, enabled, at)
    case Purge(_, cutoff) => Purged(s, cutoff)
  }

  function Run(allowed: set<string>, es: seq<Event>): Store {
    if es == [] then Store(map[], 0) else Apply(Run(allowed, es[..|es| - 1]), allowed, es[|es| - 1])
  }

  lemma OneMore(allowed: set<string>, es: seq<Event>, e: Event)
    ensures Run(allowed, es + [e]) == Apply(Run(allowed, es), allowed, e)
  {
    assert (es + [e])[..|es|] == es;
  }

  ghost predicate Inv(s: Store) {
    && (forall id :: id in s.rows ==> id < s.nextId && (s.rows[id].enabled ==> s.rows[id].active))
    && (forall i, j :: i in s.rows && j in s.rows && s.rows[i].at == s.rows[j].at ==> i == j)
  }

  lemma InvStep(s: Store, allowed: set<string>, e: Event)
    requires Inv(s)
    ensures Inv(Apply(s, allowed, e))
  {
    match e
    case Lifecycle(at, activity) =>
      if activity.at.tenant in allowed && Discovers(activity) {
        UpsertKeepsInv(s, activity, at);
      }
    case _ =>
  }

  lemma UpsertKeepsInv(s: Store, a: Activity, now: int)
    requires Inv(s)
    ensures Inv(Upserted(s, a, now))
  {
  }

  /** In every history there is at most one row per destination, and an enabled one is active. */
  lemma {:induction false} HistoriesKeepInv(allowed: set<string>, es: seq<Event>)
    ensures Inv(Run(allowed, es))
  {
    if es != [] {
      HistoriesKeepInv(allowed, es[..|es| - 1]);
      InvStep(Run(allowed, es[..|es| - 1]), allowed, es[|es| - 1]);
    }
  }

  ghost predicate EnabledAt(s: Store, d: Destination) {
    exists id :: id in s.rows && s.rows[id].at == d && s.rows[id].enabled
  }

  /** What the latest toggle or removal of a destination left it as: an enable counts only while
      its row is active, a disable always. */
  ghost predicate LastWordIsEnable(allowed: set<string>, es: seq<Event>, d: Destination) {
    es != [] &&
    var s, before := Run(allowed, es[..|es| - 1]), LastWordIsEnable(allowed, es[..|es| - 1], d);
    match es[|es| - 1]
    case Lifecycle(_, a) =>
      before && !(a.at == d && d.tenant in allowed && a.kind == InstallationUpdate && a.action == "remove")
    case Toggle(_, id, enabled) =>
      if id in s.rows && s.rows[id].at == d then enabled && (s.rows[id].active || before) else before
    case Purge(_, _) => before
  }

  /** The event is a word on the destination. */
  ghost predicate Affects(s: Store, allowed: set<string>, e: Event, d: Destination) {
    match e
    case Lifecycle(_, a) => a.at == d && d.tenant in allowed && a.kind == InstallationUpdate && a.action == "remove"
    case Toggle(_, id, enabled) => id in s.rows && s.rows[id].at == d && (enabled ==> s.rows[id].active)
    case Purge(_, _) => false
  }

  lemma LifecycleSwitch(s: Store, allowed: set<string>, a: Activity, now: int, d: Destination)
    requires Inv(s)
    ensures EnabledAt(Handled(s, allowed, a, now), d) <==>
            EnabledAt(s, d) && !(a.at == d && d.tenant in allowed && Removes(a))
  {
    var s' := Handled(s, allowed, a, now);
    if id :| id in s.rows && s.rows[id].at == d && s.rows[id].enabled {
      assert id in s'.rows && s'.rows[id].at == d;
    }
  }

  lemma ToggleSwitch(s: Store, id: nat, enabled: bool, now: int, d: Destination)
    requires Inv(s)
    ensures EnabledAt(Toggled(s, id, enabled, now), d) <==>
            if MayToggle(s, id, enabled) && s.rows[id].at == d then enabled else EnabledAt(s, d)
  {
    var s' := Toggled(s, id, enabled, now);
    if other :| other in s.rows && s.rows[other].at == d && s.rows[other].enabled {
      assert other in s'.rows && s'.rows[other].at == d;
    }
    if MayToggle(s, id, enabled) {
      assert s'.rows[id].enabled == enabled && s'.rows[id].at == s.rows[id].at;
    }
  }

  lemma PurgeSwitch(s: Store, cutoff: int, d: Destination)
    requires Inv(s)
    ensures EnabledAt(Purged(s, cutoff), d) <==> EnabledAt(s, d)
  {
    if id :| id in s.rows && s.rows[id].at == d && s.rows[id].enabled {
      assert id in Purged(s, cutoff).rows;
    }
  }

  /** Nothing but a toggle or a removal of a destination changes whether it is enabled:
      reinstalling, rediscovering or purging never does. */
  lemma OnlyTogglesAndRemovalsSwitch(s: Store, allowed: set<string>, e: Event, d: Destination)
    requires Inv(s)
    ensures EnabledAt(Apply(s, allowed, e), d) <==>
            if Affects(s, allowed, e, d) then e.Toggle? && e.enabled else EnabledAt(s, d)
  {
    match e
    case Lifecycle(at, a) => LifecycleSwitch(s, allowed, a, at, d);
    case Toggle(at, id, enabled) => ToggleSwitch(s, id, enabled, at, d);
    case Purge(_, cutoff) => PurgeSwitch(s, cutoff, d);
  }

  /** Over every history, a destination is enabled exactly when the latest effective toggle or
      removal for it was an administrator's enable. */
  lemma {:induction false} EnabledExactlyByLastWord(allowed: set<string>, es: seq<Event>, d: Destination)
    ensures EnabledAt(Run(allowed, es), d) <==> LastWordIsEnable(allowed, es, d)
  {
    if es != [] {
      EnabledExactlyByLastWord(allowed, es[..|es| - 1], d);
      HistoriesKeepInv(allowed, es[..|es| - 1]);
      OnlyTogglesAndRemovalsSwitch(Run(allowed, es[..|es| - 1]), allowed, es[|es| - 1], d);
    }
  }

  // ---------- What a word does, and how long ----------

  /** An enable of a stored active row of the destination. */
  ghost predicate Enables(s: Store, e: Event, d: Destination) {
    e.Toggle? && e.enabled && e.id in s.rows && s.rows[e.id].at == d && s.rows[e.id].active
  }

  ghost predicate NeverEnables(allowed: set<string>, es: seq<Event>, more: seq<Event>, d: Destination)
    decreases |more|
  {
    more != [] ==>
      && NeverEnables(allowed, es, more[..|more| - 1], d)
      && !Enables(Run(allowed, es + more[..|more| - 1]), more[|more| - 1], d)
  }

  lemma {:induction false} StaysOff(allowed: set<string>, es: seq<Event>, more: seq<Event>, d: Destination)
    requires !EnabledAt(Run(allowed, es), d) && NeverEnables(allowed, es, more, d)
    ensures !EnabledAt(Run(allowed, es + more), d)
    decreases |more|
  {
    if more == [] {
      assert es + more == es;
    } else {
      var front, e := more[..|more| - 1], more[|more| - 1];
      StaysOff(allowed, es, front, d);
      assert es + more == es + front + [e];
      OneMore(allowed, es + front, e);
      HistoriesKeepInv(allowed, es + front);
      OnlyTogglesAndRemovalsSwitch(Run(allowed, es + front), allowed, e, d);
    }
  }

  /** A disable of a stored row takes effect, and holds until a later enable of its destination
      while active: whatever is installed, discovered or purged meanwhile. */
  lemma DisableHolds(allowed: set<string>, es: seq<Event>, at: int, id: nat, more: seq<Event>)
    requires id in Run(allowed, es).rows
    requires NeverEnables(allowed, es + [Toggle(at, id, false)], more, Run(allowed, es).rows[id].at)
    ensures !EnabledAt(Run(allowed, es + [Toggle(at, id, false)] + more), Run(allowed, es).rows[id].at)
  {
    var e, d := Toggle(at, id, false), Run(allowed, es).rows[id].at;
    OneMore(allowed, es, e);
    HistoriesKeepInv(allowed, es);
    OnlyTogglesAndRemovalsSwitch(Run(allowed, es), allowed, e, d);
    StaysOff(allowed, es + [e], more, d);
  }

  /** So does a removal by an allowed tenant. */
  lemma RemovalHolds(allowed: set<string>, es: seq<Event>, at: int, a: Activity, more: seq<Event>)
    requires a.at.tenant in allowed && a.kind == InstallationUpdate && a.action == "remove"
    requires NeverEnables(allowed, es + [Lifecycle(at, a)], more, a.at)
    ensures !EnabledAt(Run(allowed, es + [Lifecycle(at, a)] + more), a.at)
  {
    var e := Lifecycle(at, a);
    OneMore(allowed, es, e);
    HistoriesKeepInv(allowed, es);
    OnlyTogglesAndRemovalsSwitch(Run(allowed, es), allowed, e, a.at);
    StaysOff(allowed, es + [e], more, a.at);
  }

  /** An enable of a stored row takes effect exactly when the row is active. */
  lemma EnableWorksExactly(allowed: set<string>, es: seq<Event>, at: int, id: nat)
    requires id in Run(allowed, es).rows
    ensures var row := Run(allowed, es).rows[id];
            EnabledAt(Run(allowed, es + [Toggle(at, id, true)]), row.at) <==> row.active
  {
    var e, row := Toggle(at, id, true), Run(allowed, es).rows[id];
    OneMore(allowed, es, e);
    HistoriesKeepInv(allowed, es);
    OnlyTogglesAndRemovalsSwitch(Run(allowed, es), allowed, e, row.at);
  }

  /** The row after a discovery: what the activity says, active, seen now, and its switch as it
      was, off for a destination without a row. */
  ghost predicate Refreshed(s: Store, row: Installation, a: Activity, now: int) {
    && row.at == a.at && row.serviceUrl == a.serviceUrl && row.reference == a.reference
    && row.scope == (if |a.scope| == 0 then "personal" else a.scope)
    && row.active && row.lastSeenAt == now && (row.enabled <==> EnabledAt(s, a.at))
    && (forall i :: i in s.rows && s.rows[i].at == a.at ==> row.discoveredAt == s.rows[i].discoveredAt)
    && ((forall i :: i in s.rows ==> s.rows[i].at != a.at) ==> row.discoveredAt == now)
  }

  /** What each activity of an allowed tenant does to the table; another tenant's does nothing. */
  lemma ActivityEffect(s: Store, allowed: set<string>, a: Activity, now: int, id: nat)
    requires Inv(s)
    ensures var s' := Handled(s, allowed, a, now);
            && (a.at.tenant !in allowed || a.kind.Message? || a.kind.OtherKind? ==> s' == s)
            && (id in s.rows && s.rows[id].at != a.at ==> id in s'.rows && s'.rows[id] == s.rows[id])
    ensures a.at.tenant in allowed && a.kind.InstallationUpdate? && a.action == "remove" ==>
              var s' := Handled(s, allowed, a, now);
              && (id in s'.rows <==> id in s.rows)
              && (id in s'.rows && s'.rows[id].at == a.at ==> !s'.rows[id].active && !s'.rows[id].enabled)
    ensures && a.at.tenant in allowed
            && (a.kind.ConversationUpdate? || (a.kind.InstallationUpdate? && a.action != "remove")) ==>
              var s' := Handled(s, allowed, a, now);
              && (exists i :: i in s'.rows && s'.rows[i].at == a.at)
              && (id in s'.rows && s'.rows[id].at == a.at ==> Refreshed(s, s'.rows[id], a, now))
  {
    assert a.scope != "" <==> |a.scope| != 0;
    if a.at.tenant in allowed && Discovers(a) {
      DiscoveryRefreshes(s, a, now, id);
    }
  }

  lemma DiscoveryRefreshes(s: Store, a: Activity, now: int, id: nat)
    requires Inv(s)
    ensures var s' := Upserted(s, a, now);
            && (exists i :: i in s'.rows && s'.rows[i].at == a.at)
            && (id in s'.rows && s'.rows[id].at == a.at ==> Refreshed(s, s'.rows[id], a, now))
  {
    var s' := Upserted(s, a, now);
    assert a.scope != "" <==> |a.scope| != 0;
    if known :| known in s.rows && s.rows[known].at == a.at {
      assert s'.rows[known].at == a.at;
    } else {
      assert s'.rows[s.nextId].at == a.at;
    }
  }

  /** A row is deleted exactly by a purge that finds it inactive and not seen since the cut-off. */
  lemma RowsLeaveExactly(allowed: set<string>, es: seq<Event>, e: Event, id: nat)
    requires id in Run(allowed, es).rows
    ensures var row := Run(allowed, es).rows[id];
            id !in Run(allowed, es + [e]).rows <==> e.Purge? && !row.active && row.lastSeenAt < e.cutoff
  {
    OneMore(allowed, es, e);
    HistoriesKeepInv(allowed, es);
  }
}
