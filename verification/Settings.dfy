/** The configured values the engine depends on. They stay fixed during a run. */
module Settings {
  const DAY := 86400

  datatype Settings = Settings(
    jobMaxAttempts: nat, jobRetentionDays: nat, evidenceRetentionDays: nat, auditRetentionDays: nat,
    teamsRetentionDays: nat, promptMaxRows: nat, redactionKeys: set<string>,
    teamsEnabled: bool, auditForwarded: bool, allowedTenants: set<string>)
  {
    /** What the field constraints of the settings demand. */
    predicate Sensible() {
      jobMaxAttempts >= 1 && promptMaxRows >= 1
    }
  }
}
