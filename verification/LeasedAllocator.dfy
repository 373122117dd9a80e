/** The allocator object of one node, and what its fast path is worth against plain INCR. */
module LeasedAllocator {
  import opened Options
  import opened Integers
  import opened SequenceRanges
  import opened LeaseScript
  import opened LeasedCore

  /** How the script command fares: run and answered, run but its reply lost, or never run. */
  datatype Link = Answered | ReplyLost | Unreachable

  datatype BackendError = BackendUnavailable

  /** One whole call: the entry and the keys after it, the result, and how many scripts were sent. */
  ghost function Call(node: NodeId, config: Config, entry: Option<ConvState>, redis: Redis,
                      now: nat, redisNow: real, link: Link)
    : (Option<ConvState>, Redis, Result<SeqAllocation, BackendError>, nat)
    requires config.Valid() && Readable(redis)
  {
    if FastPath(entry, now)
    then (Some(TakeFast(entry.value)), redis, Ok(Allocated(entry.value.segment.TakeNext().0.value)), 0)
    else
      var (redis', reply) := Refill(redis, redisNow, node, config.ttl, config.segmentSize, ExpectedToken(entry));
      var (kept, answer) := Settle(config, now, Decode(reply));
      match link
      case Answered => (kept, redis', Ok(answer), 1)
      case ReplyLost => (entry, redis', Err(BackendUnavailable), 1)
      case Unreachable => (entry, redis, Err(BackendUnavailable), 1)
  }

  /** A call whose answer never arrives leaves the node as it was; one that never reached Redis leaves the keys too. */
  lemma UnansweredKeepsEntry(node: NodeId, config: Config, entry: Option<ConvState>, redis: Redis,
                             now: nat, redisNow: real, link: Link)
    requires config.Valid() && Readable(redis) && !FastPath(entry, now) && link != Answered
    ensures var (entry', redis', result, asked) := Call(node, config, entry, redis, now, redisNow, link);
      && entry' == entry && result.Err? && asked == 1
      && (link == Unreachable ==> redis' == redis)
      && (link == ReplyLost && redis.lease == None ==>
            redis'.fence == redis.fence + 1 && redis'.counter == redis.counter + config.segmentSize)
  {
  }

  /** The Redis side: conversation key to its three keys. */
  class RedisBackend {
    var keys: map<string, Redis>
    var calls: nat

    ghost predicate Valid()
      reads this
    {
      forall k :: k in keys ==> Readable(keys[k])
    }

    constructor ()
      ensures Valid() && keys == map[] && calls == 0
    {
      keys, calls := map[], 0;
    }

    function At(convKey: string): Redis
      reads this
    {
      if convKey in keys then keys[convKey] else Redis(None, 0, 0)
    }

    /** One script run at Redis time `now`; only an answered command returns its outcome. */
    method AcquireAndRefill(convKey: string, node: NodeId, expected: int, ttl: nat, seg: nat, now: real, link: Link)
      returns (outcome: Result<LeaseOutcome, BackendError>)
      requires Valid()
      modifies this
      ensures Valid() && calls == old(calls) + 1
      ensures var (redis', reply) := Refill(old(At(convKey)), now, node, ttl, seg, expected);
        && outcome == (if link == Answered then Ok(Decode(reply)) else Err(BackendUnavailable))
        && keys == (if link == Unreachable then old(keys) else old(keys)[convKey := redis'])
    {
      calls := calls + 1;
      if link == Unreachable {
        return Err(BackendUnavailable);
      }
      var (redis', reply) := Refill(At(convKey), now, node, ttl, seg, expected);
      keys := keys[convKey := redis'];
      RefillReadable(old(At(convKey)), now, node, ttl, seg, expected);
      outcome := if link == Answered then Ok(Decode(reply)) else Err(BackendUnavailable);
    }
  }

  class LeasedSegmentAllocator {
    const nodeId: NodeId
    const config: Config
    const backend: RedisBackend
    var state: map<string, ConvState>

    constructor (nodeId: NodeId, backend: RedisBackend, segmentSize: nat, leaseTtl: nat, localMargin: nat)
      ensures this.nodeId == nodeId && this.backend == backend && state == map[]
      ensures config == Configure(segmentSize, leaseTtl, localMargin)
    {
      this.nodeId, this.backend := nodeId, backend;
      config := Configure(segmentSize, leaseTtl, localMargin);
      state := map[];
    }

    function Entry(convKey: string): Option<ConvState>
      reads this
    {
      if convKey in state then Some(state[convKey]) else None
    }

    /** What `allocate` does with the backend's outcome, still under the lock. */
    method Settled(convKey: string, now: nat, outcome: LeaseOutcome) returns (answer: SeqAllocation)
      requires config.Valid()
      modifies this`state
      ensures (Entry(convKey), answer) == Settle(config, now, outcome)
      ensures state - {convKey} == old(state) - {convKey}
    {
      match outcome
      case Granted(token, start, end) =>
        var (first, rest) := SequenceRange(start, end).TakeNext();
        if first == None {
          state := state - {convKey};
          return NotTheOwner;
        }
        state := state[convKey := ConvState(rest, token, SaturatingAdd(now, config.ttl - config.margin))];
        answer := Allocated(first.value);
      case NotOwner =>
        state := state - {convKey};
        answer := NotTheOwner;
    }

    /**
     `allocate` with clock reading `now`; `redisNow` is when the script runs, should it be needed.
     No other conversation is touched, on the node or in Redis.
     */
    method Allocate(convKey: string, now: nat, redisNow: real, link: Link)
      returns (result: Result<SeqAllocation, BackendError>)
      requires config.Valid() && backend.Valid()
      modifies this`state, backend
      ensures backend.Valid()
      ensures var (entry', redis', result', asked) :=
          Call(nodeId, config, old(Entry(convKey)), old(backend.At(convKey)), now, redisNow, link);
        && result == result' && backend.calls == old(backend.calls) + asked
        && Entry(convKey) == entry' && backend.At(convKey) == redis'
      ensures state - {convKey} == old(state) - {convKey}
      ensures backend.keys - {convKey} == old(backend.keys) - {convKey}
    {
      if convKey in state && now < state[convKey].validUntil {
        var (taken, rest) := state[convKey].segment.TakeNext();
        if taken.Some? {
          state := state[convKey := state[convKey].(segment := rest)];
          return Ok(Allocated(taken.value));
        }
      }
      result := AllocateSlow(convKey, now, redisNow, link);
    }

    /** The rest of `allocate`, still under the lock: a renewal under the known token, or a first acquisition. */
    method AllocateSlow(convKey: string, now: nat, redisNow: real, link: Link)
      returns (result: Result<SeqAllocation, BackendError>)
      requires config.Valid() && backend.Valid() && !FastPath(Entry(convKey), now)
      modifies this`state, backend
      ensures backend.Valid()
      ensures var (entry', redis', result', asked) :=
          Call(nodeId, config, old(Entry(convKey)), old(backend.At(convKey)), now, redisNow, link);
        && result == result' && backend.calls == old(backend.calls) + asked
        && Entry(convKey) == entry' && backend.At(convKey) == redis'
      ensures state - {convKey} == old(state) - {convKey}
      ensures backend.keys - {convKey} == old(backend.keys) - {convKey}
    {
      var expected := if convKey in state then state[convKey].token else -1;
      var reply :=
        backend.AcquireAndRefill(convKey, nodeId, expected, config.ttl, config.segmentSize, redisNow, link);
      if reply.Err? {
        return Err(reply.error);
      }
      var answer := Settled(convKey, now, reply.value);
      result := Ok(answer);
    }
  }

  // A sole owner against plain INCR.

  /** When one call happens: its clock reading, the script's time, and whether the lease lapsed before it. */
  datatype Moment = Moment(now: nat, redisNow: real, lapsed: bool)

  datatype Trace = Trace(entry: Option<ConvState>, redis: Redis, answers: seq<SeqAllocation>, scripts: nat)

  /** One more call, its script answered, no other node on the key. */
  ghost function Next(node: NodeId, config: Config, t: Trace, m: Moment): (t': Trace)
    requires config.Valid() && Readable(t.redis)
  {
    var (entry', redis', result, asked) := Call(node, config, t.entry, Found(t, m), m.now, m.redisNow, Answered);
    Trace(entry', redis', t.answers + [result.value], t.scripts + asked)
  }

  lemma NextGrows(node: NodeId, config: Config, t: Trace, m: Moment)
    requires config.Valid() && Readable(t.redis)
    ensures var t' := Next(node, config, t, m);
      Readable(t'.redis) && t.redis.fence <= t'.redis.fence && t.redis.counter <= t'.redis.counter
  {
    RefillReadable(Found(t, m), m.redisNow, node, config.ttl, config.segmentSize, ExpectedToken(t.entry));
  }

  ghost function Run(node: NodeId, config: Config, redis: Redis, ms: seq<Moment>): (t: Trace)
    requires config.Valid() && Readable(redis)
    ensures Readable(t.redis) && |t.answers| == |ms|
  {
    if ms == [] then Trace(None, redis, [], 0)
    else
      var t := Run(node, config, redis, ms[..|ms| - 1]);
      NextGrows(node, config, t, ms[|ms| - 1]);
      Next(node, config, t, ms[|ms| - 1])
  }

  /** Both counters stay where Lua's numbers and their printing are exact. */
  ghost predicate InRange(redis: Redis) {
    redis.fence <= MAX_TOKEN && redis.counter <= MAX_EXACT
  }

  /** Every call that is not due for a new segment still finds the current one locally valid. */
  ghost predicate StaysValid(config: Config, ms: seq<Moment>)
    requires config.Valid()
  {
    forall i :: 0 <= i < |ms| ==> ValidAt(config, ms, i)
  }

  ghost predicate ValidAt(config: Config, ms: seq<Moment>, i: nat)
    requires config.Valid() && i < |ms|
  {
    var used := Used(i, config.segmentSize);
    used != 0 ==> ms[i].now < ValidUntil(config, ms[i - used].now)
  }

  /** A counter value as the caller's number; no counter below comes near the top. */
  function ClampU64(n: nat): U64 {
    if n > U64_MAX then U64_MAX else n
  }

  /** The numbers plain INCR would have returned. */
  ghost predicate AsPlainIncr(redis: Redis, answers: seq<SeqAllocation>) {
    forall i :: 0 <= i < |answers| ==> answers[i] == Allocated(ClampU64(redis.counter + 1 + i))
  }

  /** k modulo the segment size: how much of its segment call k finds used. */
  function Used(k: nat, seg: nat): (u: nat)
    requires seg > 0
    ensures u < seg && u <= k
  {
    if k < seg then k else Used(k - seg, seg)
  }

  /** k over the segment size, rounded up: the segments k calls need. */
  function Segments(k: nat, seg: nat): nat
    requires seg > 0
  {
    if k == 0 then 0 else if k <= seg then 1 else 1 + Segments(k - seg, seg)
  }

  lemma {:induction false} SegmentsIsCeil(k: nat, seg: nat)
    requires seg > 0
    ensures (Segments(k, seg) - 1) * seg < k <= Segments(k, seg) * seg || k == Segments(k, seg) == 0
  {
    if k > seg {
      SegmentsIsCeil(k - seg, seg);
      assert Segments(k, seg) * seg == Segments(k - seg, seg) * seg + seg;
    }
  }

  function Left(k: nat, seg: nat): nat
    requires seg > 0
  {
    if Used(k, seg) == 0 then 0 else seg - Used(k, seg)
  }

  lemma {:induction false} OneMoreCall(k: nat, seg: nat)
    requires seg > 0
    ensures Used(k + 1, seg) == (if Used(k, seg) == seg - 1 then 0 else Used(k, seg) + 1)
    ensures Segments(k + 1, seg) == Segments(k, seg) + if Used(k, seg) == 0 then 1 else 0
  {
    if k >= seg {
      OneMoreCall(k - seg, seg);
    }
  }

  /** The call, of the first k, that took the segment in use. */
  function TakenAt(k: nat, seg: nat): nat
    requires seg > 0 && k > 0
  {
    (k - 1) - Used(k - 1, seg)
  }

  lemma TakenAtNext(k: nat, seg: nat)
    requires seg > 0 && k > 0
    ensures TakenAt(k + 1, seg) == if Used(k, seg) == 0 then k else TakenAt(k, seg)
  {
    OneMoreCall(k - 1, seg);
  }

  /** The state after k calls that all found their segment valid; only `node` has used the lease. */
  ghost predicate Steady(node: NodeId, config: Config, redis: Redis, k: nat, t: Trace)
    requires config.Valid()
  {
    && t.scripts == Segments(k, config.segmentSize)
    && t.redis.counter == redis.counter + k + Left(k, config.segmentSize)
    && Owns(node, t) && AsPlainIncr(redis, t.answers)
    && (if k == 0 then t.entry == None else
          && t.entry.Some?
          && t.entry.value.segment == SequenceRange(ClampU64(redis.counter + k + 1), ClampU64(t.redis.counter)))
  }

  /** The entry is valid from the call that took its segment. */
  ghost predicate ValidFrom(config: Config, ms: seq<Moment>, t: Trace)
    requires config.Valid()
  {
    ms != [] ==>
      t.entry.Some? && t.entry.value.validUntil == ValidUntil(config, ms[TakenAt(|ms|, config.segmentSize)].now)
  }

  ghost predicate Owns(node: NodeId, t: Trace) {
    && ':' !in node
    && (t.redis.lease.Some? ==> t.redis.lease.value.value == LeaseValue(node, t.redis.fence))
    && (t.entry.Some? ==> t.entry.value.token == t.redis.fence)
  }

  ghost predicate Refilled(node: NodeId, config: Config, t: Trace, m: Moment, t': Trace)
    requires config.Valid()
  {
    var k, seg := t.redis.counter, config.segmentSize;
    && t'.scripts == t.scripts + 1 && t'.redis.counter == k + seg && t'.redis.fence <= MAX_TOKEN
    && t'.answers == t.answers + [Allocated(ClampU64(k + 1))]
    && t'.entry == Some(ConvState(SequenceRange(ClampU64(k + 2), ClampU64(k + seg)), t'.redis.fence, ValidUntil(config, m.now)))
    && Owns(node, t')
  }

  ghost predicate TookFast(node: NodeId, t: Trace, t': Trace)
    requires t.entry.Some? && t.entry.value.segment.end < U64_MAX && t.entry.value.segment.next <= t.entry.value.segment.end
  {
    var next := t.entry.value.segment.next;
    && t'.scripts == t.scripts && t'.redis.counter == t.redis.counter && t'.redis.fence == t.redis.fence
    && t'.answers == t.answers + [Allocated(next)]
    && t'.entry == Some(t.entry.value.(segment := SequenceRange(next + 1, t.entry.value.segment.end)))
    && Owns(node, t')
  }

  /** The slow path of a sole owner is always granted, under the token it knows or a new one. */
  lemma NextRefills(node: NodeId, config: Config, t: Trace, m: Moment)
    requires config.Valid() && Readable(t.redis) && Owns(node, t) && !FastPath(t.entry, m.now)
    requires InRange(Next(node, config, t, m).redis)
    ensures Refilled(node, config, t, m, Next(node, config, t, m))
  {
    var r := Found(t, m);
    SlowNext(node, config, t, m, r);
    var r', seg := OwnKeys(r, m.redisNow, node, config.ttl, config.segmentSize), config.segmentSize;
    OwnGrant(r, m.redisNow, node, config.ttl, seg, ExpectedToken(t.entry));
    GrantDecodes(r'.fence, r'.counter, seg);
    GrantedNext(node, config, t, m, r', GrantReply(Some(r'.fence), r'.counter, seg));
  }

  /** The keys the script of a call finds. */
  function Found(t: Trace, m: Moment): Redis {
    if m.lapsed then t.redis.(lease := None) else t.redis
  }

  lemma SlowNext(node: NodeId, config: Config, t: Trace, m: Moment, r: Redis)
    requires config.Valid() && Readable(t.redis) && !FastPath(t.entry, m.now) && r == Found(t, m)
    ensures Next(node, config, t, m).redis ==
      Refill(r, m.redisNow, node, config.ttl, config.segmentSize, ExpectedToken(t.entry)).0
  {
  }

  lemma GrantedNext(node: NodeId, config: Config, t: Trace, m: Moment, r': Redis, reply: seq<I64>)
    requires config.Valid() && Readable(t.redis) && Owns(node, t) && !FastPath(t.entry, m.now) && InRange(r')
    requires (r', reply) == Refill(Found(t, m), m.redisNow, node, config.ttl, config.segmentSize, ExpectedToken(t.entry))
    requires r'.counter == t.redis.counter + config.segmentSize && r'.lease.Some?
    requires r'.lease.value.value == LeaseValue(node, r'.fence)
    requires Decode(reply) == Granted(r'.fence, t.redis.counter + 1, r'.counter)
    ensures Refilled(node, config, t, m, Next(node, config, t, m))
  {
  }

  lemma NextFast(node: NodeId, config: Config, t: Trace, m: Moment)
    requires config.Valid() && Readable(t.redis) && Owns(node, t) && FastPath(t.entry, m.now)
    requires t.entry.value.segment.end < U64_MAX
    ensures TookFast(node, t, Next(node, config, t, m))
  {
  }

  lemma AsPlainIncrSnoc(redis: Redis, answers: seq<SeqAllocation>, number: nat)
    requires AsPlainIncr(redis, answers) && number == redis.counter + 1 + |answers|
    ensures AsPlainIncr(redis, answers + [Allocated(ClampU64(number))])
  {
  }

  /** A call that finds its segment used up starts the next one at the number INCR would give. */
  lemma SteadyRefill(node: NodeId, config: Config, redis: Redis, k: nat, t: Trace, m: Moment, t': Trace)
    requires config.Valid() && Steady(node, config, redis, k, t) && |t.answers| == k
    requires Left(k, config.segmentSize) == 0 && Refilled(node, config, t, m, t') && t'.redis.counter <= MAX_EXACT
    ensures Steady(node, config, redis, k + 1, t')
  {
    OneMoreCall(k, config.segmentSize);
    AsPlainIncrSnoc(redis, t.answers, redis.counter + k + 1);
  }

  lemma SteadyFast(node: NodeId, config: Config, redis: Redis, k: nat, t: Trace, t': Trace)
    requires config.Valid() && Steady(node, config, redis, k, t) && |t.answers| == k
    requires Left(k, config.segmentSize) != 0 && t.redis.counter <= MAX_EXACT && TookFast(node, t, t')
    ensures Steady(node, config, redis, k + 1, t')
  {
    OneMoreCall(k, config.segmentSize);
    AsPlainIncrSnoc(redis, t.answers, redis.counter + k + 1);
  }

  lemma ValidFromNext(config: Config, ms: seq<Moment>, t: Trace, m: Moment, t': Trace)
    requires config.Valid() && ValidFrom(config, ms, t) && t'.entry.Some?
    requires t'.entry.value.validUntil ==
      if Used(|ms|, config.segmentSize) == 0 || ms == [] then ValidUntil(config, m.now) else t.entry.value.validUntil
    ensures ValidFrom(config, ms + [m], t')
  {
    if ms != [] {
      TakenAtNext(|ms|, config.segmentSize);
    }
  }

  lemma StaysValidPrefix(config: Config, ms: seq<Moment>, m: Moment)
    requires config.Valid()
    ensures StaysValid(config, ms + [m]) <==> StaysValid(config, ms) && ValidAt(config, ms + [m], |ms|)
  {
    assert forall i :: 0 <= i < |ms| ==> (ValidAt(config, ms + [m], i) <==> ValidAt(config, ms, i));
  }

  /** What a run of a sole owner amounts to. */
  ghost predicate Refines(node: NodeId, config: Config, redis: Redis, ms: seq<Moment>, t: Trace)
    requires config.Valid()
  {
    && (AsPlainIncr(redis, t.answers) <==> StaysValid(config, ms))
    && (StaysValid(config, ms) ==> Steady(node, config, redis, |ms|, t) && ValidFrom(config, ms, t))
  }

  /** In step with INCR, the fast path is taken exactly while the segment has numbers and is valid. */
  lemma SteadyFastPath(node: NodeId, config: Config, redis: Redis, ms: seq<Moment>, t: Trace, m: Moment)
    requires config.Valid() && Steady(node, config, redis, |ms|, t) && ValidFrom(config, ms, t) && t.redis.counter <= MAX_EXACT
    ensures FastPath(t.entry, m.now) <==> Used(|ms|, config.segmentSize) != 0 && ValidAt(config, ms + [m], |ms|)
    ensures ms != [] ==> t.entry.value.segment.end < U64_MAX
  {
    var k, seg := |ms|, config.segmentSize;
    if k > 0 && Used(k, seg) != 0 {
      TakenAtNext(k, seg);
      assert (ms + [m])[k - Used(k, seg)] == ms[TakenAt(k, seg)];
    }
  }

  lemma RefinesFast(node: NodeId, config: Config, redis: Redis, ms: seq<Moment>, t: Trace, m: Moment)
    requires config.Valid() && Readable(t.redis) && |t.answers| == |ms| && StaysValid(config, ms)
    requires Steady(node, config, redis, |ms|, t) && ValidFrom(config, ms, t)
    requires FastPath(t.entry, m.now) && t.redis.counter <= MAX_EXACT
    ensures Refines(node, config, redis, ms + [m], Next(node, config, t, m))
  {
    var t' := Next(node, config, t, m);
    SteadyFastPath(node, config, redis, ms, t, m);
    StaysValidPrefix(config, ms, m);
    NextFast(node, config, t, m);
    SteadyFast(node, config, redis, |ms|, t, t');
    ValidFromNext(config, ms, t, m, t');
  }

  lemma RefinesRefill(node: NodeId, config: Config, redis: Redis, ms: seq<Moment>, t: Trace, m: Moment, t': Trace)
    requires config.Valid() && |t.answers| == |ms| && StaysValid(config, ms)
    requires Steady(node, config, redis, |ms|, t) && ValidFrom(config, ms, t)
    requires !FastPath(t.entry, m.now) && t.redis.counter <= MAX_EXACT
    requires Refilled(node, config, t, m, t') && t'.redis.counter <= MAX_EXACT
    ensures Refines(node, config, redis, ms + [m], t')
  {
    var k := |ms|;
    SteadyFastPath(node, config, redis, ms, t, m);
    StaysValidPrefix(config, ms, m);
    if Used(k, config.segmentSize) == 0 {
      SteadyRefill(node, config, redis, k, t, m, t');
      ValidFromNext(config, ms, t, m, t');
    } else {
      EarlyRefillSkips(node, config, redis, k, t, m, t');
    }
  }

  /** A refill while the segment still has numbers skips them. */
  lemma EarlyRefillSkips(node: NodeId, config: Config, redis: Redis, k: nat, t: Trace, m: Moment, t': Trace)
    requires config.Valid() && Steady(node, config, redis, k, t) && |t.answers| == k && t.redis.counter < U64_MAX
    requires Left(k, config.segmentSize) != 0 && Refilled(node, config, t, m, t')
    ensures !AsPlainIncr(redis, t'.answers)
  {
    assert t'.answers[k] == Allocated(ClampU64(t.redis.counter + 1));
  }

  /** Once a number was skipped the answers differ from INCR for good. */
  lemma RefinesSkipped(node: NodeId, config: Config, redis: Redis, ms: seq<Moment>, t: Trace, m: Moment, t': Trace)
    requires config.Valid() && |t.answers| == |ms| && t.answers <= t'.answers
    requires Refines(node, config, redis, ms, t) && !StaysValid(config, ms)
    ensures Refines(node, config, redis, ms + [m], t')
  {
    StaysValidPrefix(config, ms, m);
    var j :| 0 <= j < |ms| && t.answers[j] != Allocated(ClampU64(redis.counter + 1 + j));
    assert t'.answers[j] == t.answers[j];
  }

  lemma RefinesNext(node: NodeId, config: Config, redis: Redis, ms: seq<Moment>, t: Trace, m: Moment)
    requires config.Valid() && Readable(t.redis) && |t.answers| == |ms| && Refines(node, config, redis, ms, t)
    requires t.redis.counter <= MAX_EXACT && InRange(Next(node, config, t, m).redis)
    ensures Refines(node, config, redis, ms + [m], Next(node, config, t, m))
  {
    if !StaysValid(config, ms) {
      RefinesSkipped(node, config, redis, ms, t, m, Next(node, config, t, m));
    } else if FastPath(t.entry, m.now) {
      RefinesFast(node, config, redis, ms, t, m);
    } else {
      NextRefills(node, config, t, m);
      RefinesRefill(node, config, redis, ms, t, m, Next(node, config, t, m));
    }
  }

  /**
   Fast form refines simple form: k allocations of a sole owner return exactly what k plain INCRs
   would iff the segment in use is locally valid whenever it is used, and then they cost
   ceil(k / segment size) script runs.
   */
  lemma {:induction false} FastRefinesPlain(node: NodeId, config: Config, redis: Redis, ms: seq<Moment>)
    requires config.Valid() && Readable(redis) && ':' !in node
    requires redis.lease.Some? ==> redis.lease.value.value == LeaseValue(node, redis.fence)
    requires InRange(Run(node, config, redis, ms).redis)
    ensures AsPlainIncr(redis, Run(node, config, redis, ms).answers) <==> StaysValid(config, ms)
    ensures StaysValid(config, ms) ==>
      Run(node, config, redis, ms).scripts == Segments(|ms|, config.segmentSize)
    ensures Refines(node, config, redis, ms, Run(node, config, redis, ms))
    decreases |ms|
  {
    if ms != [] {
      var m, init := ms[|ms| - 1], ms[..|ms| - 1];
      var t := Run(node, config, redis, init);
      assert ms == init + [m];
      NextGrows(node, config, t, m);
      FastRefinesPlain(node, config, redis, init);
      RefinesNext(node, config, redis, init, t, m);
    }
  }
}

/** The objects' calls and the step system agree: an uninterrupted run of the steps is one call. */
module LeaseCallSteps {
  import opened Options
  import opened SequenceRanges
  import opened LeaseScript
  import opened LeasedCore
  import opened LeaseSystem
  import opened LeasedAllocator
  import opened SequenceAllocator

  /** When a call reads its clock, and how long its command and then its answer take. */
  datatype Timing = Timing(readAt: real, toRedis: real, back: real)

  predicate Possible(w: World, n: NodeId, at: Timing) {
    Free(w, n, at.readAt) && at.toRedis >= 0.0 && at.back >= 0.0
  }

  /** The entry, the keys and the answer of one call of the object. */
  ghost predicate SameCall(w: World, w': World, n: NodeId, at: Timing, link: Link)
    requires Possible(w, n, at) && Readable(w.redis)
  {
    var node := w.nodes[n];
    var (entry', redis', result, asked) :=
      Call(n, node.config, node.State(), w.redis, node.Reading(at.readAt), w.now + at.toRedis, link);
    && n in w'.nodes && w'.nodes[n].State() == entry' && w'.nodes[n].phase == Idle && w'.redis == redis'
    && w'.issued == w.issued + if result.Ok? && result.value.Allocated? then [result.value.number] else []
  }

  function RequestOf(w: World, n: NodeId): Request
    requires n in w.nodes
  {
    var node := w.nodes[n];
    Request(w.nextId, n, ExpectedToken(node.State()), node.config.ttl, node.config.segmentSize)
  }

  /** The steps of a call that leaves the fast path, by what becomes of its command. */
  function SlowSteps(w: World, n: NodeId, at: Timing, link: Link): seq<Step>
    requires n in w.nodes
  {
    var q := RequestOf(w, n);
    var middle := if link == Unreachable then Vanish(q) else Execute(q);
    var last := if link == Answered then Deliver(n) else Fail(n);
    [Send(n, at.readAt), Tick(at.toRedis), middle, Tick(at.back), last]
  }

  lemma RunCons(w: World, s: Step, rest: seq<Step>)
    requires Enabled(w, s) && ValidRun(Apply(w, s), rest)
    ensures ValidRun(w, [s] + rest) && After(w, [s] + rest) == After(Apply(w, s), rest)
  {
    var steps := [s] + rest;
    assert steps[0] == s && steps[1..] == rest;
  }

  lemma RunOfTwo(w: World, a: Step, b: Step, w': World)
    requires Enabled(w, a) && Enabled(Apply(w, a), b) && w' == Apply(Apply(w, a), b)
    ensures ValidRun(w, [a] + [b]) && After(w, [a] + [b]) == w'
  {
    var none: seq<Step> := [];
    RunCons(Apply(w, a), b, none);
    assert [b] + none == [b];
    RunCons(w, a, [b]);
  }

  lemma RunOfFive(w: World, a: Step, b: Step, c: Step, d: Step, e: Step, w3: World, w': World)
    requires Enabled(w, a) && Enabled(Apply(w, a), b) && Enabled(Apply(Apply(w, a), b), c)
    requires w3 == Apply(Apply(Apply(w, a), b), c)
    requires Enabled(w3, d) && Enabled(Apply(w3, d), e) && w' == Apply(Apply(w3, d), e)
    ensures ValidRun(w, [a, b, c, d, e]) && After(w, [a, b, c, d, e]) == w'
  {
    RunOfTwo(w3, d, e, w');
    RunCons(Apply(Apply(w, a), b), c, [d] + [e]);
    RunCons(Apply(w, a), b, [c] + ([d] + [e]));
    RunCons(w, a, [b] + ([c] + ([d] + [e])));
    assert [a] + ([b] + ([c] + ([d] + [e]))) == [a, b, c, d, e];
  }

  ghost predicate Asks(w: World, n: NodeId, at: Timing) {
    && Possible(w, n, at) && Enabled(w, Send(n, at.readAt)) && Readable(w.redis)
    && w.redis.counter + w.nodes[n].config.segmentSize <= MAX_EXACT && w.redis.fence < MAX_TOKEN
  }

  /** The command on its way to Redis. */
  function Travelling(w: World, n: NodeId, at: Timing): (w': World)
    requires Asks(w, n, at)
    ensures w'.redis == w.redis && w'.issued == w.issued && w'.now == w.now + at.toRedis
    ensures n in w'.nodes && w'.nodes[n] == w.nodes[n].(phase := Waiting(w.nextId, at.readAt))
    ensures RequestOf(w, n) in w'.inflight
  {
    Apply(Apply(w, Send(n, at.readAt)), Tick(at.toRedis))
  }

  /** The node as it is just before its call ends: nothing issued, the reply at hand if there is one. */
  ghost predicate Ending(w: World, w4: World, n: NodeId, redis': Redis, phase': Phase) {
    && w4.redis == redis' && w4.issued == w.issued
    && n in w.nodes && n in w4.nodes && w4.nodes[n] == w.nodes[n].(phase := phase')
  }

  lemma ReplyArrives(w: World, n: NodeId, at: Timing)
    requires Asks(w, n, at)
    ensures var q, w2 := RequestOf(w, n), Travelling(w, n, at);
      && Enabled(w2, Execute(q))
      && var (redis', reply) := Refill(w.redis, w.now + at.toRedis, n, q.ttl, q.seg, q.expected);
      Ending(w, Apply(Apply(w2, Execute(q)), Tick(at.back)), n, redis', Replied(at.readAt, Decode(reply), w.now + at.toRedis))
  {
  }

  lemma CommandVanishes(w: World, n: NodeId, at: Timing)
    requires Asks(w, n, at)
    ensures var q, w2 := RequestOf(w, n), Travelling(w, n, at);
      && Enabled(w2, Vanish(q))
      && Ending(w, Apply(Apply(w2, Vanish(q)), Tick(at.back)), n, w.redis, Waiting(w.nextId, at.readAt))
  {
  }

  /** How the call ends. */
  lemma EndsAsCall(w: World, n: NodeId, at: Timing, link: Link, w4: World)
    requires Asks(w, n, at)
    requires var q := RequestOf(w, n);
      var (redis', reply) := Refill(w.redis, w.now + at.toRedis, n, q.ttl, q.seg, q.expected);
      if link == Unreachable then Ending(w, w4, n, w.redis, Waiting(w.nextId, at.readAt))
      else Ending(w, w4, n, redis', Replied(at.readAt, Decode(reply), w.now + at.toRedis))
    ensures var last := if link == Answered then Deliver(n) else Fail(n);
      Enabled(w4, last) && SameCall(w, Apply(w4, last), n, at, link)
  {
  }

  lemma SlowRun(w: World, n: NodeId, at: Timing, middle: Step, last: Step, w4: World)
    requires Asks(w, n, at) && Enabled(Travelling(w, n, at), middle)
    requires w4 == Apply(Apply(Travelling(w, n, at), middle), Tick(at.back)) && Enabled(w4, last)
    ensures var steps := [Send(n, at.readAt), Tick(at.toRedis), middle, Tick(at.back), last];
      ValidRun(w, steps) && After(w, steps) == Apply(w4, last)
  {
    var w3 := Apply(Travelling(w, n, at), middle);
    RunOfFive(w, Send(n, at.readAt), Tick(at.toRedis), middle, Tick(at.back), last, w3, Apply(w4, last));
  }

  lemma ExecutedIsCall(w: World, n: NodeId, at: Timing, link: Link)
    requires Asks(w, n, at) && link != Unreachable
    ensures var steps := SlowSteps(w, n, at, link); ValidRun(w, steps) && SameCall(w, After(w, steps), n, at, link)
  {
    ReplyArrives(w, n, at);
    var middle := Execute(RequestOf(w, n));
    var w4 := Apply(Apply(Travelling(w, n, at), middle), Tick(at.back));
    EndsAsCall(w, n, at, link, w4);
    SlowRun(w, n, at, middle, if link == Answered then Deliver(n) else Fail(n), w4);
  }

  lemma UnreachableIsCall(w: World, n: NodeId, at: Timing)
    requires Asks(w, n, at)
    ensures var steps := SlowSteps(w, n, at, Unreachable);
      ValidRun(w, steps) && SameCall(w, After(w, steps), n, at, Unreachable)
  {
    CommandVanishes(w, n, at);
    var middle := Vanish(RequestOf(w, n));
    var w4 := Apply(Apply(Travelling(w, n, at), middle), Tick(at.back));
    EndsAsCall(w, n, at, Unreachable, w4);
    SlowRun(w, n, at, middle, Fail(n), w4);
  }

  /**
   Whenever the call read its clock and however long its command and answer take: Fast is a call
   that asks nothing. A call that asks is Send, then Execute and Deliver when it is answered,
   Execute and Fail when its reply is lost, Vanish and Fail when it never reaches Redis.
   */
  lemma StepsMakeCall(w: World, n: NodeId, at: Timing, link: Link)
    requires Possible(w, n, at) && Readable(w.redis)
    requires w.redis.counter + w.nodes[n].config.segmentSize <= MAX_EXACT && w.redis.fence < MAX_TOKEN
    ensures if Enabled(w, Fast(n, at.readAt)) then SameCall(w, Apply(w, Fast(n, at.readAt)), n, at, link)
      else
        var steps := SlowSteps(w, n, at, link); ValidRun(w, steps) && SameCall(w, After(w, steps), n, at, link)
  {
    if !Enabled(w, Fast(n, at.readAt)) {
      if link == Unreachable {
        UnreachableIsCall(w, n, at);
      } else {
        ExecutedIsCall(w, n, at, link);
      }
    }
  }

  // The counting steps are the other allocator's calls.

  /** The step leaves the counter at the last of the numbers and hands out all of them. */
  ghost predicate HandsOut(w: World, w': World, numbers: seq<int>) {
    numbers != [] && w'.redis == w.redis.(counter := w'.redis.counter) && w'.redis.counter == numbers[|numbers| - 1]
    && w'.issued == w.issued + numbers
  }

  lemma CountHandsOut(w: World, top: nat, size: nat, numbers: seq<int>)
    requires 1 <= size <= top && |numbers| == size && forall i :: 0 <= i < size ==> numbers[i] == top - size + 1 + i
    ensures HandsOut(w, DoCount(w, top, size, true), numbers)
  {
    assert Interval(top - size + 1, top) == numbers;
  }

  lemma PlainIsIncr(w: World)
    requires Enabled(w, Plain(true))
    ensures HandsOut(w, Apply(w, Plain(true)), [NextSeq(w.redis.counter, 0)])
  {
    CountHandsOut(w, w.redis.counter + 1, 1, [w.redis.counter + 1]);
  }

  lemma FloorIsScript(w: World, floor: nat)
    requires Enabled(w, Floor(floor, true))
    ensures HandsOut(w, Apply(w, Floor(floor, true)), [NextSeq(w.redis.counter, floor)])
  {
    NextSeqIsSeqAfterFloor(w.redis.counter, floor);
    var top := Max(w.redis.counter, floor) + 1;
    CountHandsOut(w, top, 1, [top]);
  }

  lemma BatchIsIncrBy(w: World, size: nat)
    requires Enabled(w, Batch(size, true))
    ensures HandsOut(w, Apply(w, Batch(size, true)), BatchSeqs(w.redis.counter, size))
  {
    CountHandsOut(w, w.redis.counter + size, size, BatchSeqs(w.redis.counter, size));
  }
}
