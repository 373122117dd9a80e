/** The migration tool's connection object, and what holds over every history of runs. */
module MigrationRuns {
  import opened Options
  import opened MigrationLedger

  class Database<App> {
    const server: Server<App>
    var committed: State<App>
    /** The open transaction; lost unless committed. */
    var working: State<App>

    constructor (server: Server<App>, initial: State<App>)
      ensures this.server == server && committed == working == initial
    {
      this.server := server;
      committed, working := initial, initial;
    }

    /** The loop of `ledger`. */
    method CheckLedger(es: seq<Entry>, ms: seq<Migration>) returns (ok: bool)
      ensures ok == LedgerMatches(server, es, ms)
    {
      var i := 0;
      while i < |es|
        invariant 0 <= i <= |es| && i <= |ms|
        invariant forall j :: 0 <= j < i ==> EntryMatches(server, es[j], ms[j])
      {
        if i >= |ms| || !EntryMatches(server, es[i], ms[i]) {
          return false;
        }
        i := i + 1;
      }
      ok := true;
    }

    /** The loop over the pending migrations. */
    method ExecutePending(pending: seq<Migration>) returns (ok: bool)
      requires working.ledger.Some?
      modifies this`working
      ensures ok <==> ExecuteAll(server, old(working), pending).Some?
      ensures ok ==> working == ExecuteAll(server, old(working), pending).value
    {
      var i := 0;
      while i < |pending|
        invariant 0 <= i <= |pending| && working.ledger.Some?
        invariant ExecuteAll(server, working, pending[i..]) == ExecuteAll(server, old(working), pending)
      {
        var m := pending[i];
        assert pending[i..][1..] == pending[i + 1..];
        var app := server.exec(m.sql, working.app);
        if app == None {
          return false;
        }
        working := State(Some(working.ledger.value + [Plain(m)]), app.value, working.effects + [m]);
        i := i + 1;
      }
      ok := true;
    }

    /** `run`: a failure leaves the committed state as it was, since the open transaction is dropped. */
    method Run(ms: seq<Migration>, admission: Option<Admission>, trustedWriters: bool, lockFree: bool)
      returns (r: Result<nat, Error>)
      requires Numbered(ms)
      modifies this`committed, this`working
      ensures r.Ok? <==> Outcome(server, old(committed), ms, admission, trustedWriters, lockFree).Ok?
      ensures r.Ok? ==> Outcome(server, old(committed), ms, admission, trustedWriters, lockFree) == Ok(committed)
      ensures r.Err? ==> Outcome(server, old(committed), ms, admission, trustedWriters, lockFree) == Err(r.error)
      ensures r.Err? ==> committed == old(committed)
      ensures r.Ok? ==> r.value == |committed.effects| - |old(committed).effects|
    {
      working := committed;
      if !trustedWriters { return Err(UntrustedWriters); }
      if !lockFree { return Err(AlreadyRunning); }
      var entries := if working.ledger.Some? then working.ledger.value else [];
      var matches := CheckLedger(entries, ms);
      if !matches { return Err(LedgerMismatch); }
      var applied := |entries|;
      var preserved: Option<Seeds> := None;
      var actual := server.schema(working.app);
      if applied == 0 {
        var adopted := false;
        if actual.objects != [] {
          if !Reviewed(server, actual) { return Err(NotReviewed); }
          if server.ambiguousStatus(working.app) { return Err(AmbiguousHistory); }
          if admission == None || !ValidAdmission(server, admission.value)
             || admission.value.evidence != BaselineEvidence(server, working.app, ms) {
            return Err(AdmissionInvalid);
          }
          preserved := Some(admission.value.evidence.seeds);
          adopted := true;
        } else if admission.Some? {
          return Err(AdmissionUnexpected);
        }
        working := working.(ledger := Some([]));
        if adopted {
          working := working.(ledger := Some([Adopted(server, ms[0], admission.value)]));
          applied := 1;
        }
      } else {
        if admission.Some? { return Err(AdmissionUnexpected); }
        if !Reviewed(server, actual) { return Err(NotReviewed); }
        preserved := Some(server.seeds(working.app));
      }
      r := Finish(ms[applied..], preserved);
      ExecuteAllEffects(server, Prepare(server, old(committed), ms, admission).value.0, ms[applied..]);
    }

    /** From the first pending migration to COMMIT. */
    method Finish(pending: seq<Migration>, preserved: Option<Seeds>) returns (r: Result<nat, Error>)
      requires working.ledger.Some?
      modifies this`committed, this`working
      ensures var done := ExecuteAll(server, old(working), pending);
        && (r == if done == None then Err(SqlFailed)
            else if preserved.Some? && server.seeds(done.value.app) != ExpectedSeeds(preserved.value, pending)
              then Err(SeedsChanged)
            else if !IsLatest(server, server.schema(done.value.app)) then Err(SchemaMismatch)
            else Ok(|pending|))
        && (if r.Ok? then Some(committed) == done else committed == old(committed))
    {
      var ok := ExecutePending(pending);
      if !ok { return Err(SqlFailed); }
      if preserved.Some? && server.seeds(working.app) != ExpectedSeeds(preserved.value, pending) {
        return Err(SeedsChanged);
      }
      if !IsLatest(server, server.schema(working.app)) { return Err(SchemaMismatch); }
      committed := working;
      r := Ok(|pending|);
    }
  }

  /** The application's database after the given SQL, one file after the other. */
  ghost function Replay<App>(server: Server<App>, app: App, ms: seq<Migration>): Option<App>
    decreases |ms|
  {
    if ms == [] then Some(app)
    else match server.exec(ms[0].sql, app)
      case None => None
      case Some(app') => Replay(server, app', ms[1..])
  }

  /** Executing everything applies and records exactly the pending list, in order. */
  lemma {:induction false} ExecuteAllEffects<App>(server: Server<App>, st: State<App>, pending: seq<Migration>)
    requires st.ledger.Some?
    ensures var done := ExecuteAll(server, st, pending);
      && (if done.Some? then Some(done.value.app) else None) == Replay(server, st.app, pending)
      && (done.Some? ==>
        && done.value.effects == st.effects + pending
        && done.value.ledger.Some? && st.ledger.value <= done.value.ledger.value
        && |done.value.ledger.value| == |st.ledger.value| + |pending|
        && forall i :: 0 <= i < |pending| ==> done.value.ledger.value[|st.ledger.value| + i] == Plain(pending[i]))
    decreases |pending|
  {
    if pending != [] && server.exec(pending[0].sql, st.app).Some? {
      var app' := server.exec(pending[0].sql, st.app).value;
      var st' := State(Some(st.ledger.value + [Plain(pending[0])]), app', st.effects + [pending[0]]);
      ExecuteAllEffects(server, st', pending[1..]);
      var done := ExecuteAll(server, st, pending);
      if done.Some? {
        var es := done.value.ledger.value;
        assert es[|st.ledger.value|] == st'.ledger.value[|st.ledger.value|];
        forall i | 1 <= i < |pending| ensures es[|st.ledger.value| + i] == Plain(pending[i]) {
          assert es[|st'.ledger.value| + (i - 1)] == Plain(pending[1..][i - 1]);
        }
        assert st.effects + [pending[0]] + pending[1..] == st.effects + pending;
      }
    }
  }

  // Histories.

  /** A run of the tool, or the application changing its own data between runs. */
  datatype Event<App> =
    | Migrate(ms: seq<Migration>, admission: Option<Admission>, trustedWriters: bool, lockFree: bool)
    | Work(app: App)

  ghost function Step<App>(server: Server<App>, st: State<App>, e: Event<App>): State<App>
    requires e.Migrate? ==> Numbered(e.ms)
  {
    match e
    case Work(app) => st.(app := app)
    case Migrate(ms, admission, trusted, free) =>
      var o := Outcome(server, st, ms, admission, trusted, free);
      if o.Ok? then o.value else st
  }

  /** Migration lists only ever grow at the end. */
  ghost predicate AppendOnly<App>(events: seq<Event<App>>, known: seq<Migration>) {
    events == [] ||
    match events[0]
    case Work(_) => AppendOnly(events[1..], known)
    case Migrate(ms, _, _, _) => Numbered(ms) && known <= ms && AppendOnly(events[1..], ms)
  }

  ghost function Known<App>(events: seq<Event<App>>, known: seq<Migration>): seq<Migration> {
    if events == [] then known
    else Known(events[1..], if events[0].Migrate? then events[0].ms else known)
  }

  ghost function After<App>(server: Server<App>, st: State<App>, events: seq<Event<App>>, known: seq<Migration>): State<App>
    requires AppendOnly(events, known)
    decreases |events|
  {
    if events == [] then st
    else After(server, Step(server, st, events[0]), events[1..], if events[0].Migrate? then events[0].ms else known)
  }

  /** 1 when version 1 was adopted rather than executed. */
  function Skipped(es: seq<Entry>): nat {
    if es != [] && es[0].admission.Some? then 1 else 0
  }

  /** The ledger is a matching prefix, and the SQL in effect is that prefix less an adopted version 1. */
  ghost predicate Consistent<App>(server: Server<App>, st: State<App>, known: seq<Migration>) {
    var es := if st.ledger.Some? then st.ledger.value else [];
    && LedgerMatches(server, es, known)
    && Skipped(es) <= |es|
    && st.effects == known[Skipped(es)..|es|]
  }

  lemma PreparedConsistent<App>(server: Server<App>, st: State<App>, known: seq<Migration>, ms: seq<Migration>,
                                admission: Option<Admission>)
    requires Consistent(server, st, known) && Numbered(ms) && known <= ms
    requires Prepare(server, st, ms, admission).Ok?
    ensures var from := Prepare(server, st, ms, admission).value.0;
      from.ledger.Some? && Consistent(server, from, ms)
  {
    var es := if st.ledger.Some? then st.ledger.value else [];
    assert known[Skipped(es)..|es|] == ms[Skipped(es)..|es|];
    assert ms[1..1] == [];
  }

  lemma ExtendedLedgerMatches<App>(server: Server<App>, es: seq<Entry>, es': seq<Entry>, ms: seq<Migration>)
    requires LedgerMatches(server, es, ms) && es <= es' && |es'| == |ms|
    requires forall i :: 0 <= i < |ms| - |es| ==> es'[|es| + i] == Plain(ms[|es|..][i])
    ensures LedgerMatches(server, es', ms) && Skipped(es') == Skipped(es)
  {
    forall i | |es| <= i < |es'| ensures es'[i] == Plain(ms[i]) {
      assert es'[|es| + (i - |es|)] == Plain(ms[|es|..][i - |es|]);
    }
  }

  lemma CompletedConsistent<App>(server: Server<App>, from: State<App>, done: State<App>, ms: seq<Migration>)
    requires Consistent(server, from, ms) && from.ledger.Some? && done.ledger.Some?
    requires var es, pending := from.ledger.value, ms[|from.ledger.value|..];
      && es <= done.ledger.value && |done.ledger.value| == |ms| && done.effects == from.effects + pending
      && (forall i :: 0 <= i < |pending| ==> done.ledger.value[|es| + i] == Plain(pending[i]))
    ensures Consistent(server, done, ms)
  {
    var es, es' := from.ledger.value, done.ledger.value;
    ExtendedLedgerMatches(server, es, es', ms);
    var n := Skipped(es);
    assert ms[n..|es|] + ms[|es|..] == ms[n..] == ms[n..|es'|];
  }

  /** Executing the rest of the list from a consistent state completes ledger and effects together. */
  lemma ExecutedConsistent<App>(server: Server<App>, from: State<App>, ms: seq<Migration>)
    requires Consistent(server, from, ms) && from.ledger.Some?
    ensures var done := ExecuteAll(server, from, ms[|from.ledger.value|..]);
      done.Some? ==> Consistent(server, done.value, ms) && done.value.ledger.Some? && |done.value.ledger.value| == |ms|
  {
    var es := from.ledger.value;
    var pending := ms[|es|..];
    ExecuteAllEffects(server, from, pending);
    var done := ExecuteAll(server, from, pending);
    if done.Some? {
      CompletedConsistent(server, from, done.value, ms);
    }
  }

  /** What a successful run leaves behind: the whole list recorded, and the latest schema. */
  lemma SuccessfulRun<App>(server: Server<App>, st: State<App>, known: seq<Migration>, ms: seq<Migration>,
                           admission: Option<Admission>, trusted: bool, free: bool)
    requires Consistent(server, st, known) && Numbered(ms) && known <= ms
    requires Outcome(server, st, ms, admission, trusted, free).Ok?
    ensures var done := Outcome(server, st, ms, admission, trusted, free).value;
      && Consistent(server, done, ms) && done.ledger.Some? && |done.ledger.value| == |ms|
      && IsLatest(server, server.schema(done.app))
  {
    PreparedConsistent(server, st, known, ms, admission);
    ExecutedConsistent(server, Prepare(server, st, ms, admission).value.0, ms);
  }

  lemma StepConsistent<App>(server: Server<App>, st: State<App>, e: Event<App>, known: seq<Migration>)
    requires Consistent(server, st, known) && AppendOnly([e], known)
    ensures Consistent(server, Step(server, st, e), if e.Migrate? then e.ms else known)
  {
    if e.Migrate? {
      if Outcome(server, st, e.ms, e.admission, e.trustedWriters, e.lockFree).Ok? {
        SuccessfulRun(server, st, known, e.ms, e.admission, e.trustedWriters, e.lockFree);
      } else {
        var es := if st.ledger.Some? then st.ledger.value else [];
        assert known[Skipped(es)..|es|] == e.ms[Skipped(es)..|es|];
      }
    }
  }

  /**
   Over every history of successful and failed runs with an append-only list, and whatever the
   application does in between: the ledger is a contiguous checksum-matching prefix, and the SQL in
   effect is exactly that prefix, each version once, less version 1 if it was adopted.
   */
  lemma {:induction false} LedgerOverHistory<App>(server: Server<App>, st: State<App>, events: seq<Event<App>>, known: seq<Migration>)
    requires Consistent(server, st, known) && AppendOnly(events, known)
    ensures Consistent(server, After(server, st, events, known), Known(events, known))
    decreases |events|
  {
    if events != [] {
      StepConsistent(server, st, events[0], known);
      LedgerOverHistory(server, Step(server, st, events[0]), events[1..], if events[0].Migrate? then events[0].ms else known);
    }
  }

  /** No version's SQL is in effect twice, and an adopted version 1 never is. */
  lemma EffectsAtMostOnce<App>(server: Server<App>, st: State<App>, known: seq<Migration>)
    requires Consistent(server, st, known) && (known == [] || Numbered(known))
    ensures forall i, j :: 0 <= i < j < |st.effects| ==> st.effects[i].version < st.effects[j].version
    ensures st.ledger.Some? && st.ledger.value != [] && st.ledger.value[0].admission.Some? ==>
      forall i :: 0 <= i < |st.effects| ==> st.effects[i].version > 1
  {
    var es := if st.ledger.Some? then st.ledger.value else [];
    SliceNumbered(known, Skipped(es), |es|, st.effects);
  }

  lemma SliceNumbered(known: seq<Migration>, n: nat, end: nat, slice: seq<Migration>)
    requires (known == [] || Numbered(known)) && n <= end <= |known| && slice == known[n..end]
    ensures forall i :: 0 <= i < |slice| ==> slice[i].version == i + n + 1
  {
    forall i | 0 <= i < |slice| ensures slice[i].version == i + n + 1 {
      assert slice[i] == known[i + n];
    }
  }

  lemma {:induction false} KnownNumbered<App>(events: seq<Event<App>>, known: seq<Migration>)
    requires AppendOnly(events, known) && (known == [] || Numbered(known))
    ensures Known(events, known) == [] || Numbered(Known(events, known))
    decreases |events|
  {
    if events != [] {
      KnownNumbered(events[1..], if events[0].Migrate? then events[0].ms else known);
    }
  }

  /** From a database the tool has never seen: over every history, each version's SQL took effect at most once. */
  lemma OnceOverHistory<App>(server: Server<App>, app: App, events: seq<Event<App>>)
    requires AppendOnly(events, [])
    ensures var st := After(server, State(None, app, []), events, []);
      && Consistent(server, st, Known(events, []))
      && (forall i, j :: 0 <= i < j < |st.effects| ==> st.effects[i].version < st.effects[j].version)
  {
    LedgerOverHistory(server, State(None, app, []), events, []);
    KnownNumbered(events, []);
    EffectsAtMostOnce(server, After(server, State(None, app, []), events, []), Known(events, []));
  }

  /** A repeat of a successful run executes nothing; it succeeds iff every reviewed shape has its profile. */
  lemma RepeatExecutesNothing<App>(server: Server<App>, st: State<App>, known: seq<Migration>, ms: seq<Migration>,
                                   admission: Option<Admission>)
    requires Consistent(server, st, known) && Numbered(ms) && known <= ms
    requires Outcome(server, st, ms, admission, true, true).Ok?
    ensures var done := Outcome(server, st, ms, admission, true, true).value;
      var again := Outcome(server, done, ms, None, true, true);
      && (again.Ok? ==> again.value == done)
      && (again.Ok? <==> HasProfiles(server, server.schema(done.app).environment))
  {
    SuccessfulRun(server, st, known, ms, admission, true, true);
    var done := Outcome(server, st, ms, admission, true, true).value;
    assert ms[|done.ledger.value|..] == [];
    assert ExpectedSeeds(server.seeds(done.app), []) == server.seeds(done.app);
    var actual := server.schema(done.app);
    assert REVIEWED_SHAPES[8] == "latest";
    assert Reviewed(server, actual) <==> HasProfiles(server, actual.environment);
  }

  // A repeat can be refused.

  /** A server of which only the latest shape has a profile; state 0 is the empty database. */
  function BareServer(): Server<int> {
    var latest := Schema("pg", ["table"], "");
    Server((sql, app) => Some(1), app => Seeds(None, None, None),
           app => if app == 0 then latest.(objects := []) else latest, app => false, "db",
           (name, environment) => if name == "latest" && environment == "pg" then Some(latest) else None,
           schema => "", admission => "", date => true)
  }

  /** On an empty database the first run succeeds, and the same run again is refused. */
  lemma RepeatCanBeRefused(m: Migration)
    requires m.version == 1
    ensures var first := Outcome(BareServer(), State(None, 0, []), [m], None, true, true);
      first.Ok? && Outcome(BareServer(), first.value, [m], None, true, true) == Err(NotReviewed)
  {
    var server, st, ms := BareServer(), State(None, 0, []), [m];
    var from := State(Some([]), 0, []);
    assert Prepare(server, st, ms, None) == Ok((from, None));
    assert ms[0..] == ms && ms[1..] == [];
    var done := State(Some([Plain(m)]), 1, [m]);
    assert ExecuteAll(server, from, ms) == ExecuteAll(server, done, []) by {
      assert [] + [Plain(m)] == [Plain(m)] && [] + [m] == [m];
    }
    assert IsLatest(server, server.schema(1));
    assert Outcome(server, st, ms, None, true, true) == Ok(done);
    assert EntryMatches(server, Plain(m), m);
    assert REVIEWED_SHAPES[0] == "baseline" && "baseline"[0] != "latest"[0];
    assert server.profile(REVIEWED_SHAPES[0], "pg") == None;
  }

  // Seeds.

  function Recorded<App>(st: State<App>): nat {
    if st.ledger.Some? then |st.ledger.value| else 0
  }

  /** The database is not empty, so its seeds are someone's. */
  predicate Existing<App>(server: Server<App>, st: State<App>) {
    Recorded(st) > 0 || server.schema(st.app).objects != []
  }

  /** What crossing version 19 does to the seeds: the bootstrap grant goes, any other stays. */
  function SeedsAcross(before: Seeds, recorded: nat, recorded': nat): Seeds {
    if recorded < 19 <= recorded' && before.rtcGrant.Some? && before.rtcGrant.value.source == "init_bootstrap"
    then before.(rtcGrant := None) else before
  }

  lemma PendingCrosses(before: Seeds, ms: seq<Migration>, recorded: nat, applied: nat)
    requires Numbered(ms) && recorded <= applied <= |ms| && applied <= recorded + 1 && (recorded == 0 || applied == recorded)
    ensures ExpectedSeeds(before, ms[applied..]) == SeedsAcross(before, recorded, |ms|)
  {
    var pending := ms[applied..];
    if recorded < 19 <= |ms| {
      assert pending[18 - applied].version == 19;
    }
    forall i | 0 <= i < |pending| ensures pending[i].version == applied + i + 1 {
      assert pending[i] == ms[applied + i];
    }
  }

  lemma SeedsInRun<App>(server: Server<App>, st: State<App>, known: seq<Migration>, ms: seq<Migration>,
                        admission: Option<Admission>, trusted: bool, free: bool)
    requires Consistent(server, st, known) && Numbered(ms) && known <= ms && Existing(server, st)
    requires Outcome(server, st, ms, admission, trusted, free).Ok?
    ensures var done := Outcome(server, st, ms, admission, trusted, free).value;
      server.seeds(done.app) == SeedsAcross(server.seeds(st.app), Recorded(st), |ms|)
  {
    var recorded := Recorded(st);
    PendingCrosses(server.seeds(st.app), ms, recorded, if recorded == 0 then 1 else recorded);
  }

  lemma SeedsInStep<App>(server: Server<App>, st: State<App>, e: Event<App>, known: seq<Migration>)
    requires Consistent(server, st, known) && AppendOnly([e], known) && e.Migrate? && Existing(server, st)
    ensures var st' := Step(server, st, e);
      && Existing(server, st') && Recorded(st) <= Recorded(st')
      && server.seeds(st'.app) == SeedsAcross(server.seeds(st.app), Recorded(st), Recorded(st'))
  {
    if Outcome(server, st, e.ms, e.admission, e.trustedWriters, e.lockFree).Ok? {
      SuccessfulRun(server, st, known, e.ms, e.admission, e.trustedWriters, e.lockFree);
      SeedsInRun(server, st, known, e.ms, e.admission, e.trustedWriters, e.lockFree);
    }
  }

  /**
   Over every sequence of successful and failed runs on a database that is not empty, the seeds are
   those it started with, but for the bootstrap RTC grant, which is gone exactly once the ledger
   has passed version 19. No run ever changes the tenant or the settings row.
   */
  lemma {:induction false} SeedsOverHistory<App>(server: Server<App>, st: State<App>, events: seq<Event<App>>, known: seq<Migration>)
    requires Consistent(server, st, known) && AppendOnly(events, known) && Existing(server, st)
    requires forall i :: 0 <= i < |events| ==> events[i].Migrate?
    ensures var st' := After(server, st, events, known);
      && Recorded(st) <= Recorded(st')
      && server.seeds(st'.app) == SeedsAcross(server.seeds(st.app), Recorded(st), Recorded(st'))
    decreases |events|
  {
    if events != [] {
      var e := events[0];
      SeedsInStep(server, st, e, known);
      StepConsistent(server, st, e, known);
      SeedsOverHistory(server, Step(server, st, e), events[1..], e.ms);
    }
  }
}
