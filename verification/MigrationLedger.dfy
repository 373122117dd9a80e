/**
 The transactional migration run over a checksum ledger. Migration SQL is an arbitrary function of
 the application's part of the database; it may fail, and it does not write the ledger table.
 */
module MigrationLedger {
  import opened Options
  import opened SqlSplitter

  datatype Migration = Migration(version: nat, name: string, sql: string, checksum: string)

  /** The three seed rows as JSON text; of the grant only its source matters here. */
  datatype Grant = Grant(source: string, row: string)
  datatype Seeds = Seeds(tenant0: Option<string>, settings1: Option<string>, rtcGrant: Option<Grant>)

  datatype Intent = PreserveMissing | PreservePresent
  datatype Intents = Intents(tenant0: Intent, settings1: Intent, rtcGrant: Intent)

  datatype Evidence = Evidence(database: string, environment: string, schemaSha: string,
                               checksums: seq<(nat, string)>, seeds: Seeds)
  datatype Approval = Approval(reviewer: string, reference: string, reviewedAt: string, intents: Intents)
  datatype Admission = Admission(evidence: Evidence, approval: Approval)

  datatype Entry = Entry(version: nat, checksum: string, admission: Option<Admission>, admissionSha: Option<string>)

  /** The logical schema as the catalog query prints it. */
  datatype Schema = Schema(environment: string, objects: seq<string>, timescale: string)

  /** What the server, the profile files and the digests answer. */
  datatype Server<!App> = Server(
    exec: (string, App) -> Option<App>,
    seeds: App -> Seeds,
    schema: App -> Schema,
    ambiguousStatus: App -> bool,
    identity: string,
    profile: (string, string) -> Option<Schema>,
    schemaDigest: Schema -> string,
    admissionDigest: Admission -> string,
    zonedDate: string -> bool)

  /** `effects` lists the migrations whose SQL is part of the state. */
  datatype State<App> = State(ledger: Option<seq<Entry>>, app: App, effects: seq<Migration>)

  datatype Error =
    | UntrustedWriters | AlreadyRunning | LedgerMismatch | NotReviewed | AmbiguousHistory
    | AdmissionInvalid | AdmissionUnexpected | SqlFailed | SeedsChanged | SchemaMismatch

  const REVIEWED_SHAPES: seq<string> :=
    ["baseline", "v0008", "v0009", "v0010", "v0011", "v0019", "v0020", "v0022", "latest"]

  /** What `load_migrations` returns: at least one file, numbered from 1 without a gap. */
  predicate Numbered(ms: seq<Migration>) {
    |ms| > 0 && forall i :: 0 <= i < |ms| ==> ms[i].version == i + 1
  }

  predicate HasProfiles<App>(server: Server<App>, environment: string) {
    forall i :: 0 <= i < |REVIEWED_SHAPES| ==> server.profile(REVIEWED_SHAPES[i], environment).Some?
  }

  /** `assert_reviewed_baseline`: every profile file must exist, and one of them match. */
  predicate Reviewed<App>(server: Server<App>, actual: Schema) {
    && HasProfiles(server, actual.environment)
    && (exists i :: 0 <= i < |REVIEWED_SHAPES| && server.profile(REVIEWED_SHAPES[i], actual.environment) == Some(actual))
  }

  predicate IsLatest<App>(server: Server<App>, actual: Schema) {
    server.profile("latest", actual.environment) == Some(actual)
  }

  // Admission of a database that existed before the ledger.

  predicate NonBlank(s: string) {
    exists i :: 0 <= i < |s| && !IsSpace(s[i])
  }

  predicate HexDigest(s: string) {
    |s| == 64 && forall i :: 0 <= i < |s| ==> '0' <= s[i] <= '9' || 'a' <= s[i] <= 'f'
  }

  function IntentFor<T>(row: Option<T>): Intent {
    if row == None then PreserveMissing else PreservePresent
  }

  predicate ValidAdmission<App>(server: Server<App>, a: Admission) {
    && HexDigest(a.evidence.schemaSha)
    && NonBlank(a.approval.reviewer) && NonBlank(a.approval.reference) && NonBlank(a.approval.reviewedAt)
    && server.zonedDate(a.approval.reviewedAt)
    && a.approval.intents ==
         Intents(IntentFor(a.evidence.seeds.tenant0), IntentFor(a.evidence.seeds.settings1), IntentFor(a.evidence.seeds.rtcGrant))
  }

  function BaselineEvidence<App>(server: Server<App>, app: App, ms: seq<Migration>): Evidence {
    var actual := server.schema(app);
    Evidence(server.identity, actual.environment, server.schemaDigest(actual),
             seq(|ms|, i requires 0 <= i < |ms| => (ms[i].version, ms[i].checksum)), server.seeds(app))
  }

  // The ledger.

  predicate EntryMatches<App>(server: Server<App>, e: Entry, m: Migration) {
    && e.version == m.version && e.checksum == m.checksum
    && (match e.admission
        case Some(a) => ValidAdmission(server, a) && e.version == 1 && e.admissionSha == Some(server.admissionDigest(a))
        case None => e.admissionSha == None)
  }

  /** A contiguous, checksum-matching and audited prefix of the migration list. */
  predicate LedgerMatches<App>(server: Server<App>, es: seq<Entry>, ms: seq<Migration>) {
    |es| <= |ms| && forall i :: 0 <= i < |es| ==> EntryMatches(server, es[i], ms[i])
  }

  function Plain(m: Migration): Entry {
    Entry(m.version, m.checksum, None, None)
  }

  function Adopted<App>(server: Server<App>, m: Migration, a: Admission): Entry {
    Entry(m.version, m.checksum, Some(a), Some(server.admissionDigest(a)))
  }

  /** The seeds a run over existing seeds must leave: only version 19 retires the bootstrap grant. */
  function ExpectedSeeds(before: Seeds, pending: seq<Migration>): Seeds {
    if (exists i :: 0 <= i < |pending| && pending[i].version == 19)
       && before.rtcGrant.Some? && before.rtcGrant.value.source == "init_bootstrap"
    then before.(rtcGrant := None)
    else before
  }

  /** Executing and recording the pending migrations one by one. */
  function ExecuteAll<App>(server: Server<App>, st: State<App>, pending: seq<Migration>): Option<State<App>>
    requires st.ledger.Some?
    decreases |pending|
  {
    if pending == [] then Some(st)
    else
      match server.exec(pending[0].sql, st.app)
      case None => None
      case Some(app') =>
        ExecuteAll(server, State(Some(st.ledger.value + [Plain(pending[0])]), app', st.effects + [pending[0]]), pending[1..])
  }

  /** How a run begins: the state to execute from, and the seeds it must keep if there are any. */
  function Prepare<App>(server: Server<App>, st: State<App>, ms: seq<Migration>, admission: Option<Admission>)
    : Result<(State<App>, Option<Seeds>), Error>
    requires Numbered(ms)
  {
    var entries := if st.ledger.Some? then st.ledger.value else [];
    var actual := server.schema(st.app);
    if !LedgerMatches(server, entries, ms) then Err(LedgerMismatch)
    else if entries != [] then
      if admission.Some? then Err(AdmissionUnexpected)
      else if !Reviewed(server, actual) then Err(NotReviewed)
      else Ok((st, Some(server.seeds(st.app))))
    else if actual.objects == [] then
      if admission.Some? then Err(AdmissionUnexpected) else Ok((st.(ledger := Some([])), None))
    else if !Reviewed(server, actual) then Err(NotReviewed)
    else if server.ambiguousStatus(st.app) then Err(AmbiguousHistory)
    else if admission == None || !ValidAdmission(server, admission.value)
            || admission.value.evidence != BaselineEvidence(server, st.app, ms) then Err(AdmissionInvalid)
    else Ok((st.(ledger := Some([Adopted(server, ms[0], admission.value)])), Some(admission.value.evidence.seeds)))
  }

  /** `run` as one transaction: the state to commit, or why nothing is. */
  function Outcome<App>(server: Server<App>, st: State<App>, ms: seq<Migration>, admission: Option<Admission>,
                        trustedWriters: bool, lockFree: bool): Result<State<App>, Error>
    requires Numbered(ms)
  {
    if !trustedWriters then Err(UntrustedWriters)
    else if !lockFree then Err(AlreadyRunning)
    else
      match Prepare(server, st, ms, admission)
      case Err(e) => Err(e)
      case Ok((from, preserved)) =>
        var pending := ms[|from.ledger.value|..];
        match ExecuteAll(server, from, pending)
        case None => Err(SqlFailed)
        case Some(done) =>
          if preserved.Some? && server.seeds(done.app) != ExpectedSeeds(preserved.value, pending) then Err(SeedsChanged)
          else if !IsLatest(server, server.schema(done.app)) then Err(SchemaMismatch)
          else Ok(done)
  }
}
