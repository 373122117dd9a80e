/**
 The atomic acquire-or-renew script that Redis runs for one conversation, at the level of the
 strings and integer arrays it handles, and the client side that reads its reply.
 */
module LeaseScript {
  import opened Options
  import opened Integers
  import opened SequenceRanges
  import Decimal

  type NodeId = string

  datatype LeaseKey = LeaseKey(value: string, expireAt: real)

  /** The three keys of one conversation; a missing counter reads as zero. */
  datatype Redis = Redis(lease: Option<LeaseKey>, fence: nat, counter: nat)

  /** Lua's `..` prints a number with 14 significant digits. */
  const MAX_TOKEN: nat := 99_999_999_999_999

  datatype LeaseOutcome =
    | Granted(token: U64, start: U64, end: U64)
    | NotOwner

  function LeaseValue(node: NodeId, token: nat): string {
    node + ":" + Decimal.Print(token)
  }

  /** Index of the first ':' or the length when there is none. */
  function FirstColon(s: string): (i: nat)
    ensures i <= |s| && (forall j :: 0 <= j < i ==> s[j] != ':')
    ensures i < |s| ==> s[i] == ':'
    ensures i < |s| <==> ':' in s
  {
    if s == [] || s[0] == ':' then 0 else 1 + FirstColon(s[1..])
  }

  function OwnerOf(value: string): NodeId {
    value[..FirstColon(value)]
  }

  function TokenOf(value: string): Option<nat>
    requires ':' in value
  {
    Decimal.Parse(value[FirstColon(value) + 1..])
  }

  /** Redis answers signed 64-bit integers; the counters of the model stay far below their top. */
  function AsI64(z: int): I64 {
    if z > I64_MAX then I64_MAX else if z < -I64_MAX then -I64_MAX else z
  }

  /** A script array stops at its first nil, so a nil token truncates the reply. */
  function GrantReply(token: Option<nat>, endseq: nat, seg: nat): seq<I64> {
    match token
    case Some(t) => [1, AsI64(t), AsI64(endseq - seg + 1), AsI64(endseq)]
    case None => [1]
  }

  /** The script can find the separator of a present lease. */
  predicate Readable(r: Redis) {
    r.lease.Some? ==> ':' in r.lease.value.value
  }

  /** LEASE_REFILL_LUA; `expected` is -1 when the caller knows no token. */
  function Refill(r: Redis, now: real, node: NodeId, ttl: nat, seg: nat, expected: int): (Redis, seq<I64>)
    requires Readable(r)
  {
    match r.lease
    case Some(key) =>
      var token := TokenOf(key.value);
      if OwnerOf(key.value) != node then (r, [0, 0, 0, 0])
      else if expected >= 0 && (token == None || token.value != expected) then (r, [0, 0, 0, 0])
      else
        (Redis(Some(LeaseKey(key.value, now + ttl as real)), r.fence, r.counter + seg),
         GrantReply(token, r.counter + seg, seg))
    case None =>
      var token := r.fence + 1;
      (Redis(Some(LeaseKey(LeaseValue(node, token), now + ttl as real)), token, r.counter + seg),
       GrantReply(Some(token), r.counter + seg, seg))
  }

  /** `max(0) as u64`. */
  function ToU64(z: I64): U64 {
    if z < 0 then 0 else z
  }

  /** `RedisSeqLeaseBackend::acquire_and_refill` on the script's reply. */
  function Decode(reply: seq<I64>): LeaseOutcome {
    if |reply| >= 4 && reply[0] == 1
    then Granted(ToU64(reply[1]), ToU64(reply[2]), ToU64(reply[3]))
    else NotOwner
  }

  /** The i64 origin of a segment's end keeps `saturating_add` from ever repeating one of its numbers. */
  lemma GrantNeverRepeats(reply: seq<I64>)
    requires Decode(reply).Granted?
    ensures NeverRepeats(SequenceRange(Decode(reply).start, Decode(reply).end))
  {
    NeverRepeatsIffBelowTop(SequenceRange(Decode(reply).start, Decode(reply).end));
  }

  /** The lease string reads back as what was written exactly when the node id holds no ':'. */
  lemma LeaseValueParses(node: NodeId, token: nat)
    ensures ':' in LeaseValue(node, token)
    ensures ':' !in node <==>
      OwnerOf(LeaseValue(node, token)) == node && TokenOf(LeaseValue(node, token)) == Some(token)
    ensures ':' in node ==>
      OwnerOf(LeaseValue(node, token)) != node && TokenOf(LeaseValue(node, token)) == None
  {
    var v := LeaseValue(node, token);
    assert v[|node|] == ':';
    var i := FirstColon(v);
    if ':' !in node {
      assert forall j :: 0 <= j < |node| ==> v[j] == node[j];
      assert i == |node|;
      assert v[..i] == node && v[i + 1..] == Decimal.Print(token);
      Decimal.ParsePrint(token);
    } else {
      var c :| 0 <= c < |node| && node[c] == ':';
      assert v[c] == ':' && i <= c;
      var rest := v[i + 1..];
      assert rest[|node| - i - 1] == ':';
      assert |OwnerOf(v)| == i < |node|;
    }
  }

  /** A script run leaves a lease in which the next one finds the separator. */
  lemma RefillReadable(r: Redis, now: real, node: NodeId, ttl: nat, seg: nat, expected: int)
    requires Readable(r)
    ensures Readable(Refill(r, now, node, ttl, seg, expected).0)
  {
    LeaseValueParses(node, r.fence + 1);
  }

  /** The keys after a node with a readable id finds no lease, or its own under a token it knows or does not expect. */
  function OwnKeys(r: Redis, now: real, node: NodeId, ttl: nat, seg: nat): Redis {
    var fence := if r.lease == None then r.fence + 1 else r.fence;
    Redis(Some(LeaseKey(LeaseValue(node, fence), now + ttl as real)), fence, r.counter + seg)
  }

  /** Such a node is granted the numbers right above the counter. */
  lemma OwnGrant(r: Redis, now: real, node: NodeId, ttl: nat, seg: nat, expected: int)
    requires Readable(r) && ':' !in node
    requires r.lease.Some? ==> r.lease.value.value == LeaseValue(node, r.fence) && (expected < 0 || expected == r.fence)
    ensures var (r', reply) := Refill(r, now, node, ttl, seg, expected);
      && r' == OwnKeys(r, now, node, ttl, seg)
      && reply == GrantReply(Some(r'.fence), r.counter + seg, seg)
  {
    LeaseValueParses(node, r.fence);
  }

  /** Where the counters are in range, the reply decodes to what was granted. */
  lemma GrantDecodes(token: nat, endseq: nat, seg: nat)
    requires token <= MAX_TOKEN && seg <= endseq <= MAX_EXACT
    ensures Decode(GrantReply(Some(token), endseq, seg)) == Granted(token, endseq - seg + 1, endseq)
  {
  }

  lemma OwnerOfLease(n: NodeId, token: nat)
    ensures OwnerOf(LeaseValue(n, token)) == OwnerOf(n)
  {
    var v := LeaseValue(n, token);
    assert v[|n|] == ':' && forall i :: 0 <= i < |n| ==> v[i] == n[i];
    var c := FirstColon(n);
    assert FirstColon(v) == c by {
      if c < |n| {
        assert v[c] == ':';
      }
    }
    assert v[..c] == n[..c];
  }

  /** The keys after a renewal of a present lease: a full lease time from now, and one more segment handed out. */
  ghost predicate Renewed(r: Redis, now: real, ttl: nat, seg: nat, r': Redis) {
    && r.lease.Some? && r'.lease == Some(LeaseKey(r.lease.value.value, now + ttl as real))
    && r'.fence == r.fence && r'.counter == r.counter + seg
  }

  /** All a script run can do on a lease whose writer's id has no ':'. A refusal writes no key. */
  lemma RunOnPlainLease(r: Redis, now: real, node: NodeId, ttl: nat, seg: nat, expected: int, writer: NodeId)
    requires r.lease.Some? && r.lease.value.value == LeaseValue(writer, r.fence) && ':' !in writer && Readable(r)
    requires r.fence <= MAX_TOKEN && r.counter + seg <= MAX_EXACT
    ensures var (r', reply) := Refill(r, now, node, ttl, seg, expected);
      if node == writer && (expected < 0 || expected == r.fence)
      then Renewed(r, now, ttl, seg, r') && Decode(reply) == Granted(r.fence, r.counter + 1, r.counter + seg)
      else r' == r && reply == [0, 0, 0, 0] && Decode(reply) == NotOwner
  {
    LeaseValueParses(writer, r.fence);
  }

  /** All it can do on a lease whose writer's id has a ':': nobody is granted, and one node can renew it unawares. */
  lemma RunOnSplitLease(r: Redis, now: real, node: NodeId, ttl: nat, seg: nat, expected: int, writer: NodeId)
    requires r.lease.Some? && r.lease.value.value == LeaseValue(writer, r.fence) && ':' in writer && Readable(r)
    ensures var (r', reply) := Refill(r, now, node, ttl, seg, expected);
      && Decode(reply) == NotOwner
      && (if node == OwnerOf(writer) && expected < 0 then Renewed(r, now, ttl, seg, r') else r' == r)
  {
    LeaseValueParses(writer, r.fence);
    OwnerOfLease(writer, r.fence);
  }

  /**
   The keys move without a grant exactly when the lease's writer has a ':' in its id and the caller,
   who expects no token, is the part before it. In every other refusal they stay as they were.
   */
  lemma MovesUngrantedIff(r: Redis, now: real, node: NodeId, ttl: nat, seg: nat, expected: int, writer: NodeId)
    requires r.lease.Some? && r.lease.value.value == LeaseValue(writer, r.fence) && Readable(r)
    requires r.fence <= MAX_TOKEN && r.counter + seg <= MAX_EXACT && seg >= 1
    ensures var (r', reply) := Refill(r, now, node, ttl, seg, expected);
      Decode(reply) == NotOwner && r' != r <==> ':' in writer && node == OwnerOf(writer) && expected < 0
  {
    if ':' in writer {
      RunOnSplitLease(r, now, node, ttl, seg, expected, writer);
    } else {
      RunOnPlainLease(r, now, node, ttl, seg, expected, writer);
    }
  }

  /** Whoever reads a grant on a live lease is the node that wrote the lease. */
  lemma GrantOnLiveLease(r: Redis, now: real, node: NodeId, ttl: nat, seg: nat, expected: int, writer: NodeId)
    requires r.lease.Some? && r.lease.value.value == LeaseValue(writer, r.fence)
    requires ':' in r.lease.value.value
    ensures Decode(Refill(r, now, node, ttl, seg, expected).1).Granted? <==>
      node == writer && ':' !in writer && (expected < 0 || expected == r.fence)
  {
    LeaseValueParses(writer, r.fence);
  }
}

/** The node-local part of `allocate`: what the fast path may do and how a reply is settled. */
module LeasedCore {
  import opened Options
  import opened Integers
  import opened SequenceRanges
  import opened LeaseScript

  datatype Config = Config(segmentSize: nat, ttl: nat, margin: nat) {
    predicate Valid() {
      1 <= segmentSize && 1 <= ttl && margin < ttl
    }
  }

  /** The clamps of `LeasedSegmentAllocator::new`. */
  function Configure(segmentSize: nat, leaseTtl: nat, localMargin: nat): (c: Config)
    ensures c.Valid()
    ensures localMargin < leaseTtl && segmentSize > 0 ==> c == Config(segmentSize, leaseTtl, localMargin)
    ensures c.ttl == leaseTtl || (leaseTtl == 0 && c.ttl == 1)
    ensures c.segmentSize == segmentSize || (segmentSize == 0 && c.segmentSize == 1)
    ensures c.margin == localMargin || (c.margin < localMargin && c.margin == c.ttl - 1)
  {
    var ttl := if leaseTtl < 1 then 1 else leaseTtl;
    Config(if segmentSize < 1 then 1 else segmentSize, ttl,
           if localMargin < ttl - 1 then localMargin else ttl - 1)
  }

  datatype ConvState = ConvState(segment: SequenceRange, token: U64, validUntil: U64)

  datatype SeqAllocation = Allocated(number: U64) | NotTheOwner

  predicate FastPath(state: Option<ConvState>, now: nat) {
    && state.Some?
    && now < state.value.validUntil
    && state.value.segment.TakeNext().0.Some?
  }

  function TakeFast(cs: ConvState): ConvState {
    cs.(segment := cs.segment.TakeNext().1)
  }

  function ExpectedToken(state: Option<ConvState>): int {
    if state.Some? then state.value.token else -1
  }

  function ValidUntil(config: Config, now: nat): U64
    requires config.Valid()
  {
    SaturatingAdd(now, config.ttl - config.margin)
  }

  /** The entry to keep and the answer to give once the backend has replied. */
  function Settle(config: Config, now: nat, outcome: LeaseOutcome): (Option<ConvState>, SeqAllocation)
    requires config.Valid()
  {
    match outcome
    case Granted(token, start, end) =>
      var (first, rest) := SequenceRange(start, end).TakeNext();
      if first == None then (None, NotTheOwner)
      else (Some(ConvState(rest, token, ValidUntil(config, now))), Allocated(first.value))
    case NotOwner => (None, NotTheOwner)
  }

  /** A grant hands out its first number and keeps the rest until the margin; anything else clears the entry. */
  lemma SettleExact(config: Config, now: nat, outcome: LeaseOutcome)
    requires config.Valid()
    ensures var (kept, answer) := Settle(config, now, outcome);
      if outcome.Granted? && outcome.start <= outcome.end < U64_MAX
      then
        && answer == Allocated(outcome.start)
        && kept.Some? && kept.value.segment == SequenceRange(outcome.start + 1, outcome.end)
        && kept.value.token == outcome.token
        && (now + config.ttl <= U64_MAX ==> kept.value.validUntil == now + config.ttl - config.margin)
      else outcome.NotOwner? || outcome.end < outcome.start ==> kept == None && answer == NotTheOwner
  {
  }
}
