/** What a migration run decides, said from the values it is given. */
module MigrationExact {
  import opened Options
  import opened SqlSplitter
  import opened MigrationLedger
  import opened MigrationRuns

  /** The code points of `str.isspace`. */
  const SPACE: set<int> :=
    {9, 10, 11, 12, 13, 28, 29, 30, 31, 32, 133, 160, 5760, 8192, 8193, 8194, 8195, 8196, 8197, 8198, 8199, 8200, 8201,
     8202, 8232, 8233, 8239, 8287, 12288}

  lemma SpaceIff(c: char)
    ensures IsSpace(c) <==> c as int in SPACE
  {
  }

  // The ledger.

  /** An audited row: an admission only for version 1, with its digest, and no digest without one. */
  ghost predicate Audited<App>(server: Server<App>, e: Entry) {
    if e.admission == None then e.admissionSha == None
    else
      && e.version == 1 && ValidAdmission(server, e.admission.value)
      && e.admissionSha == Some(server.admissionDigest(e.admission.value))
  }

  /** A ledger is accepted iff it is numbered from 1, no longer than the list, equal in checksum and audited. */
  lemma LedgerAcceptedIff<App>(server: Server<App>, es: seq<Entry>, ms: seq<Migration>)
    requires Numbered(ms)
    ensures LedgerMatches(server, es, ms) <==>
      && |es| <= |ms|
      && (forall i :: 0 <= i < |es| ==> es[i].version == i + 1 && es[i].checksum == ms[i].checksum)
      && (forall i :: 0 <= i < |es| ==> Audited(server, es[i]))
  {
    if |es| <= |ms| {
      forall i | 0 <= i < |es|
        ensures EntryMatches(server, es[i], ms[i]) <==>
          es[i].version == i + 1 && es[i].checksum == ms[i].checksum && Audited(server, es[i])
      {
        assert ms[i].version == i + 1;
      }
    }
  }

  /** An admission is valid iff it names a reviewer, a reference and a zoned date, carries a digest, and reviews each seed as found. */
  lemma AdmissionValidIff<App>(server: Server<App>, a: Admission)
    ensures ValidAdmission(server, a) <==>
      && |a.evidence.schemaSha| == 64
      && (forall i :: 0 <= i < 64 && i < |a.evidence.schemaSha| ==> a.evidence.schemaSha[i] in "0123456789abcdef")
      && (exists i :: 0 <= i < |a.approval.reviewer| && a.approval.reviewer[i] as int !in SPACE)
      && (exists i :: 0 <= i < |a.approval.reference| && a.approval.reference[i] as int !in SPACE)
      && (exists i :: 0 <= i < |a.approval.reviewedAt| && a.approval.reviewedAt[i] as int !in SPACE)
      && server.zonedDate(a.approval.reviewedAt)
      && (a.approval.intents.tenant0 == PreserveMissing <==> a.evidence.seeds.tenant0 == None)
      && (a.approval.intents.settings1 == PreserveMissing <==> a.evidence.seeds.settings1 == None)
      && (a.approval.intents.rtcGrant == PreserveMissing <==> a.evidence.seeds.rtcGrant == None)
  {
    NonBlankIff(a.approval.reviewer);
    NonBlankIff(a.approval.reference);
    NonBlankIff(a.approval.reviewedAt);
    HexIff(a.evidence.schemaSha);
  }

  lemma NonBlankIff(s: string)
    ensures NonBlank(s) <==> exists i :: 0 <= i < |s| && s[i] as int !in SPACE
  {
    forall i | 0 <= i < |s| ensures IsSpace(s[i]) <==> s[i] as int in SPACE {
      SpaceIff(s[i]);
    }
  }

  lemma HexIff(s: string)
    ensures HexDigest(s) <==> |s| == 64 && forall i :: 0 <= i < 64 && i < |s| ==> s[i] in "0123456789abcdef"
  {
    forall c: char ensures c in "0123456789abcdef" <==> '0' <= c <= '9' || 'a' <= c <= 'f' {
      HexDigitIff(c);
    }
  }

  lemma HexDigitIff(c: char)
    ensures c in "0123456789abcdef" <==> '0' <= c <= '9' || 'a' <= c <= 'f'
  {
    var digits := "0123456789abcdef";
    if '0' <= c <= '9' {
      assert digits[c as int - '0' as int] == c;
    } else if 'a' <= c <= 'f' {
      assert digits[c as int - 'a' as int + 10] == c;
    }
  }

  /** A schema is reviewed iff all nine shapes have a profile for its environment and it is one of them. */
  lemma ReviewedIff<App>(server: Server<App>, actual: Schema)
    ensures Reviewed(server, actual) <==>
      var shape := (name: string) => server.profile(name, actual.environment);
      && shape("baseline").Some? && shape("v0008").Some? && shape("v0009").Some? && shape("v0010").Some?
      && shape("v0011").Some? && shape("v0019").Some? && shape("v0020").Some? && shape("v0022").Some? && shape("latest").Some?
      && actual in {shape("baseline").value, shape("v0008").value, shape("v0009").value, shape("v0010").value,
                    shape("v0011").value, shape("v0019").value, shape("v0020").value, shape("v0022").value,
                    shape("latest").value}
  {
    var s := REVIEWED_SHAPES;
    assert |s| == 9 && s[0] == "baseline" && s[1] == "v0008" && s[2] == "v0009" && s[3] == "v0010" && s[4] == "v0011";
    assert s[5] == "v0019" && s[6] == "v0020" && s[7] == "v0022" && s[8] == "latest";
  }

  // The run.

  function Rows<App>(st: State<App>): seq<Entry> {
    if st.ledger.Some? then st.ledger.value else []
  }

  /** The evidence describes this database, these migrations and these seeds. */
  ghost predicate Current<App>(server: Server<App>, app: App, ms: seq<Migration>, e: Evidence) {
    && e.database == server.identity && e.environment == server.schema(app).environment
    && e.schemaSha == server.schemaDigest(server.schema(app)) && e.seeds == server.seeds(app)
    && |e.checksums| == |ms| && forall i :: 0 <= i < |ms| ==> e.checksums[i] == (ms[i].version, ms[i].checksum)
  }

  /** A database the tool has never recorded may be adopted. */
  ghost predicate Adoptable<App>(server: Server<App>, app: App, ms: seq<Migration>, admission: Option<Admission>) {
    && Reviewed(server, server.schema(app)) && !server.ambiguousStatus(app)
    && admission.Some? && ValidAdmission(server, admission.value) && Current(server, app, ms, admission.value.evidence)
  }

  /** A run may start: its ledger matches, and it is a first run, an adoption or a continuation. */
  ghost predicate MayStart<App>(server: Server<App>, st: State<App>, ms: seq<Migration>, admission: Option<Admission>) {
    && LedgerMatches(server, Rows(st), ms)
    && (if Rows(st) != [] then admission == None && Reviewed(server, server.schema(st.app))
        else if server.schema(st.app).objects == [] then admission == None
        else Adoptable(server, st.app, ms, admission))
  }

  /** How many migrations it does not execute: those recorded, and an adopted version 1. */
  function Done<App>(server: Server<App>, st: State<App>): nat {
    if Rows(st) == [] && server.schema(st.app).objects != [] then 1 else |Rows(st)|
  }

  /** What the executed SQL must leave. */
  ghost predicate Lands<App>(server: Server<App>, st: State<App>, ms: seq<Migration>, app': App)
    requires Numbered(ms)
  {
    && (Existing(server, st) ==> server.seeds(app') == SeedsAcross(server.seeds(st.app), Recorded(st), |ms|))
    && server.profile("latest", server.schema(app').environment) == Some(server.schema(app'))
  }

  lemma CurrentIff<App>(server: Server<App>, app: App, ms: seq<Migration>, e: Evidence)
    ensures e == BaselineEvidence(server, app, ms) <==> Current(server, app, ms, e)
  {
    var b := BaselineEvidence(server, app, ms);
    assert |b.checksums| == |ms| && forall i :: 0 <= i < |ms| ==> b.checksums[i] == (ms[i].version, ms[i].checksum);
    if Current(server, app, ms, e) {
      assert e.checksums == b.checksums;
    }
  }

  lemma StartIff<App>(server: Server<App>, st: State<App>, ms: seq<Migration>, admission: Option<Admission>)
    requires Numbered(ms)
    ensures var start := Prepare(server, st, ms, admission);
      && (start.Ok? <==> MayStart(server, st, ms, admission))
      && (start.Ok? ==>
            && start.value.0.ledger.Some? && |start.value.0.ledger.value| == Done(server, st) <= |ms|
            && start.value.0.app == st.app && start.value.0.effects == st.effects
            && start.value.1 == if Existing(server, st) then Some(server.seeds(st.app)) else None)
  {
    if admission.Some? {
      CurrentIff(server, st.app, ms, admission.value.evidence);
    }
  }

  /**
   Exactly when a run succeeds: trusted writers, a free lock, a start that is allowed, and pending
   SQL that runs and lands. It then leaves the replay of that SQL and its effects, and nothing else.
   */
  lemma RunSucceedsIff<App>(server: Server<App>, st: State<App>, ms: seq<Migration>, admission: Option<Admission>,
                            trusted: bool, free: bool)
    requires Numbered(ms)
    ensures var o := Outcome(server, st, ms, admission, trusted, free);
      o.Ok? <==>
        && trusted && free && MayStart(server, st, ms, admission) && Done(server, st) <= |ms|
        && var app' := Replay(server, st.app, ms[Done(server, st)..]);
        app'.Some? && Lands(server, st, ms, app'.value)
    ensures var o := Outcome(server, st, ms, admission, trusted, free);
      o.Ok? ==>
        && Done(server, st) <= |ms| && Some(o.value.app) == Replay(server, st.app, ms[Done(server, st)..])
        && o.value.effects == st.effects + ms[Done(server, st)..]
  {
    StartIff(server, st, ms, admission);
    var start := Prepare(server, st, ms, admission);
    if start.Ok? {
      var pending := ms[Done(server, st)..];
      ExecuteAllEffects(server, start.value.0, pending);
      PendingCrosses(server.seeds(st.app), ms, Recorded(st), Done(server, st));
    }
  }

  /** Which refusal a run gets before it executes anything: that of the first check it fails. */
  lemma StartReasons<App>(server: Server<App>, st: State<App>, ms: seq<Migration>, admission: Option<Admission>,
                          trusted: bool, free: bool)
    requires Numbered(ms)
    ensures var o := Outcome(server, st, ms, admission, trusted, free);
      var matches := LedgerMatches(server, Rows(st), ms);
      var reviewed := Reviewed(server, server.schema(st.app));
      var empty := Rows(st) == [] && server.schema(st.app).objects == [];
      var adopting := Rows(st) == [] && server.schema(st.app).objects != [];
      && (!trusted ==> o == Err(UntrustedWriters))
      && (trusted && !free ==> o == Err(AlreadyRunning))
      && (trusted && free ==>
            && (!matches ==> o == Err(LedgerMismatch))
            && (matches && (empty || Rows(st) != []) && admission.Some? ==> o == Err(AdmissionUnexpected))
            && (matches && Rows(st) != [] && admission == None && !reviewed ==> o == Err(NotReviewed))
            && (adopting && !reviewed ==> o == Err(NotReviewed))
            && (adopting && reviewed && server.ambiguousStatus(st.app) ==> o == Err(AmbiguousHistory))
            && (adopting && reviewed && !server.ambiguousStatus(st.app) && !Adoptable(server, st.app, ms, admission) ==>
                  o == Err(AdmissionInvalid)))
  {
    if admission.Some? {
      CurrentIff(server, st.app, ms, admission.value.evidence);
    }
  }
}
