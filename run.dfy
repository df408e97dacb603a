/** The script's top level: the credential gate, the search loop, and the
    deduplicated frame that is written out when there is anything to write. */
module Run {
  import opened Wrappers
  import opened Frames
  import opened Rules
  import opened Aggregate
  import opened Dedup

  /** The three environment variables the script reads at start-up. */
  datatype Credentials = Credentials(
    senderEmail: Option<string>,
    appPassword: Option<string>,
    recipientEmail: Option<string>)

  /** Python truthiness of an environment lookup: set and non-empty. */
  predicate Truthy(v: Option<string>)
  {
    v.Some? && v.value != ""
  }

  predicate CredentialsComplete(c: Credentials)
  {
    Truthy(c.senderEmail) && Truthy(c.appPassword) && Truthy(c.recipientEmail)
  }

  /** How a run ends: aborted on missing credentials, with nothing to save,
      or with the deduplicated frame that is written to the CSV file. */
  datatype Outcome = MissingCredentials | NoJobs | Saved(jobs: Frame)

  /** The save stage: deduplicate and save only a non-empty accumulator. */
  method Save(all: Frame) returns (outcome: Outcome)
    ensures outcome != MissingCredentials
    ensures outcome == NoJobs <==> IsEmpty(all)
    ensures outcome.Saved? ==>
              && outcome.jobs.columns == all.columns
              && outcome.jobs.rows == KeepFirst(all.rows, KeyByUrl(all))
              && |outcome.jobs.rows| > 0
  {
    if IsEmpty(all) {
      outcome := NoJobs;
    } else {
      var unique := DropDuplicates(all);
      assert all.rows[0] in all.rows;
      outcome := Saved(unique);
    }
  }

  /** A whole run with the fixed role list and keyword lists. `searched`
      lists the search terms sent to the provider, in order. */
  method RunScript(c: Credentials, p: Provider) returns (outcome: Outcome, searched: seq<string>)
    ensures outcome == MissingCredentials <==> !CredentialsComplete(c)
    ensures !CredentialsComplete(c) ==> searched == []
    ensures CredentialsComplete(c) ==> searched == JobRoles
    ensures CredentialsComplete(c) ==>
              var all := Collect(DefaultRules, p, JobRoles);
              && (outcome == NoJobs <==> IsEmpty(all))
              && (outcome.Saved? ==> outcome.jobs.rows == KeepFirst(all.rows, KeyByUrl(all)))
  {
    if !CredentialsComplete(c) {
      return MissingCredentials, [];
    }
    var all;
    all, searched := FetchAll(DefaultRules, p, JobRoles);
    outcome := Save(all);
  }
}
