/** The Teams gateway: lifecycle activities become changes of the installation table. */
module Gateway {
  import opened Json
  import opened Settings
  import opened Database
  import Teams = TeamsLifecycle

  datatype Handling = NotAllowed | Ignored | Removed(changed: bool) | Discovered(id: nat, enabled: bool)

  class TeamsGateway {
    const settings: Settings
    const database: Database

    constructor (settings: Settings, database: Database)
      ensures this.settings == settings && this.database == database
    {
      this.settings, this.database := settings, database;
    }

    function IgnoredPayload(a: Teams.Activity): Json {
      var place := map["tenant_id" := Str(a.at.tenant), "conversation_id" := Str(a.at.conversation)];
      Obj(if a.kind.OtherKind? then place["activity_type" := Str(a.kind.name)] else place)
    }

    /** A tenant that is not allowed is refused and changes nothing; a discovery reports the
        row with its switch as it was, off for a new row. */
    method HandleLifecycle(a: Teams.Activity) returns (h: Handling)
      requires Teams.Inv(database.Destinations())
      modifies database`installations, database`nextInstallation, database`audits, database`nextAudit, database`clock
      ensures database.clock >= old(database.clock)
      ensures database.Destinations() ==
              Teams.Handled(old(database.Destinations()), settings.allowedTenants, a, database.clock)
      ensures h.NotAllowed? <==> a.at.tenant !in settings.allowedTenants
      ensures h.Removed? <==>
                a.at.tenant in settings.allowedTenants && a.kind.InstallationUpdate? && a.action == "remove"
      ensures h.Discovered? <==>
                && a.at.tenant in settings.allowedTenants
                && (a.kind.ConversationUpdate? || (a.kind.InstallationUpdate? && a.action != "remove"))
      ensures h.NotAllowed? || h.Ignored? ==> database.Destinations() == old(database.Destinations())
      ensures h.Removed? ==>
                forall id :: id in database.installations && database.installations[id].at == a.at ==>
                  !database.installations[id].active && !database.installations[id].enabled
      ensures h.Discovered? ==>
                && h.id in database.installations
                && Teams.Refreshed(old(database.Destinations()), database.installations[h.id], a, database.clock)
      ensures h.Discovered? ==>
                && h.id in database.installations && database.installations[h.id].at == a.at
                && database.installations[h.id].enabled == h.enabled
                && (h.enabled <==> Teams.EnabledAt(old(database.Destinations()), a.at))
      ensures !h.Ignored? ==> database.audits == old(database.audits) && database.nextAudit == old(database.nextAudit)
      ensures h.Ignored? ==>
                var id := old(database.nextAudit);
                && database.nextAudit == id + 1 && id in database.audits
                && database.audits == old(database.audits)[id := database.audits[id]]
                && database.audits[id].eventType ==
                    (if a.kind.Message? then "teams.message_ignored" else "teams.activity_ignored")
                && database.audits[id].payload.Obj?
                && var told := database.audits[id].payload.fields;
                && told.Keys == (if a.kind.OtherKind? then {"tenant_id", "conversation_id", "activity_type"}
                                 else {"tenant_id", "conversation_id"})
                && told["tenant_id"] == Str(a.at.tenant) && told["conversation_id"] == Str(a.at.conversation)
                && (a.kind.OtherKind? ==> told["activity_type"] == Str(a.kind.name))
      ensures h.Removed? ==> (h.changed <==> Teams.Known(old(database.Destinations()), a.at))
    {
      if a.at.tenant !in settings.allowedTenants {
        return NotAllowed;
      }
      if a.kind.InstallationUpdate? && a.action == "remove" {
        var changed := database.DeactivateInstallation(a.at);
        return Removed(changed);
      }
      if a.kind.InstallationUpdate? || a.kind.ConversationUpdate? {
        var id := database.UpsertInstallation(a);
        DiscoveryKeepsSwitch(old(database.Destinations()), a, database.clock, id);
        return Discovered(id, database.installations[id].enabled);
      }
      var id := database.Audit(if a.kind.Message? then "teams.message_ignored" else "teams.activity_ignored",
                               "teams", IgnoredPayload(a));
      h := Ignored;
    }

    lemma DiscoveryKeepsSwitch(s: Teams.Store, a: Teams.Activity, now: int, id: nat)
      requires Teams.Inv(s)
      requires id in Teams.Upserted(s, a, now).rows && Teams.Upserted(s, a, now).rows[id].at == a.at
      ensures Teams.Upserted(s, a, now).rows[id].enabled <==> Teams.EnabledAt(s, a.at)
    {
      var s' := Teams.Upserted(s, a, now);
      if other :| other in s.rows && s.rows[other].at == a.at && s.rows[other].enabled {
        assert s'.rows[other].at == a.at;
        Teams.UpsertKeepsInv(s, a, now);
      }
    }
  }
}
