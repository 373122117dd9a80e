/**
 The step system of sequence allocation for one conversation: any number of nodes, one Redis,
 real time. A call of `allocate` reads its clock at `readAt`, then waits for the node lock; the
 lock is held from the decision (Fast or Send) until the reply is delivered or the call fails.
 A command already sent may reach Redis at any later time, even after its caller has given up,
 and its reply may be lost. Plain, batch and floor allocations use the same counter.
 */
module LeaseSystem {
  import opened Options
  import opened SequenceRanges
  import opened LeaseScript
  import opened LeasedCore

  datatype Request = Request(id: nat, node: NodeId, expected: int, ttl: nat, seg: nat)

  datatype Phase =
    | Idle
    | Waiting(id: nat, readAt: real)
    | Replied(readAt: real, outcome: LeaseOutcome, executedAt: real)

  /** The map entry of `allocate`, with the moments of its clock read and of its script run. */
  datatype Entry = Entry(cs: ConvState, readAt: real, grantedAt: real)

  /** `base` is when the process took its monotonic origin. */
  datatype Node = Node(config: Config, base: real, entry: Option<Entry>, phase: Phase) {
    function State(): Option<ConvState> {
      if entry.Some? then Some(entry.value.cs) else None
    }

    /** A monotonic clock in whole milliseconds since `base`. */
    function Reading(t: real): nat
      requires base <= t
    {
      (t - base).Floor
    }

    predicate EntryHolds(k: int) {
      entry.Some? && entry.value.cs.segment.Contains(k)
    }

    predicate ReplyHolds(k: int) {
      phase.Replied? && phase.outcome.Granted? && phase.outcome.start <= k <= phase.outcome.end
    }

    predicate Holds(k: int) {
      EntryHolds(k) || ReplyHolds(k)
    }
  }

  /** `issued` lists the numbers handed to callers in issue order, `owners` the lease acquirers. */
  datatype World = World(
    now: real,
    redis: Redis,
    nodes: map<NodeId, Node>,
    inflight: set<Request>,
    nextId: nat,
    issued: seq<int>,
    owners: seq<NodeId>)

  datatype Step =
    | Tick(elapsed: real)
    | Expire
    | Fast(node: NodeId, readAt: real)
    | Send(node: NodeId, readAt: real)
    | Execute(req: Request)
    | Vanish(req: Request)
    | Deliver(node: NodeId)
    | Fail(node: NodeId)
    | Restart(node: NodeId)
    | Plain(delivered: bool)
    | Batch(size: nat, delivered: bool)
    | Floor(floor: nat, delivered: bool)

  function Init(configs: map<NodeId, Config>): World {
    World(0.0, Redis(None, 0, 0), map n | n in configs :: Node(configs[n], 0.0, None, Idle), {}, 0, [], [])
  }

  predicate Free(w: World, n: NodeId, readAt: real) {
    && n in w.nodes && w.nodes[n].config.Valid()
    && w.nodes[n].phase == Idle
    && w.nodes[n].base <= readAt <= w.now
  }

  predicate Enabled(w: World, s: Step) {
    match s
    case Tick(d) => d >= 0.0
    case Expire => w.redis.lease.Some? && w.redis.lease.value.expireAt <= w.now
    case Fast(n, t) => Free(w, n, t) && FastPath(w.nodes[n].State(), w.nodes[n].Reading(t))
    case Send(n, t) => Free(w, n, t) && !FastPath(w.nodes[n].State(), w.nodes[n].Reading(t))
    case Execute(q) =>
      && q in w.inflight && q.node in w.nodes && Readable(w.redis)
      && w.redis.counter + q.seg <= MAX_EXACT && w.redis.fence < MAX_TOKEN
    case Vanish(q) => q in w.inflight
    case Deliver(n) =>
      && n in w.nodes && w.nodes[n].config.Valid()
      && w.nodes[n].phase.Replied? && w.nodes[n].base <= w.nodes[n].phase.readAt
    case Fail(n) => n in w.nodes && w.nodes[n].phase != Idle
    case Restart(n) => n in w.nodes
    case Plain(_) => w.redis.counter < MAX_EXACT
    case Batch(size, _) => 1 <= size && w.redis.counter + size <= MAX_EXACT
    case Floor(floor, _) => w.redis.counter < MAX_EXACT && floor < MAX_EXACT
  }

  function Put(w: World, n: NodeId, node: Node): World {
    w.(nodes := w.nodes[n := node])
  }

  function Issue(w: World, numbers: seq<int>): World {
    w.(issued := w.issued + numbers)
  }

  function DoFast(w: World, n: NodeId): World
    requires n in w.nodes && w.nodes[n].entry.Some? && w.nodes[n].State().value.segment.TakeNext().0.Some?
  {
    var node := w.nodes[n];
    var e := node.entry.value;
    Issue(Put(w, n, node.(entry := Some(e.(cs := TakeFast(e.cs))))), [e.cs.segment.TakeNext().0.value])
  }

  function DoSend(w: World, n: NodeId, t: real): World
    requires n in w.nodes
  {
    var node := w.nodes[n];
    var q := Request(w.nextId, n, ExpectedToken(node.State()), node.config.ttl, node.config.segmentSize);
    Put(w, n, node.(phase := Waiting(w.nextId, t))).(inflight := w.inflight + {q}, nextId := w.nextId + 1)
  }

  function DoExecute(w: World, q: Request): World
    requires q.node in w.nodes && Readable(w.redis)
  {
    var (redis', reply) := Refill(w.redis, w.now, q.node, q.ttl, q.seg, q.expected);
    var node := w.nodes[q.node];
    var node' :=
      if node.phase.Waiting? && node.phase.id == q.id
      then node.(phase := Replied(node.phase.readAt, Decode(reply), w.now))
      else node;
    Put(w, q.node, node').(
      redis := redis',
      inflight := w.inflight - {q},
      owners := if w.redis.lease == None then w.owners + [q.node] else w.owners)
  }

  function DoDeliver(w: World, n: NodeId): World
    requires Enabled(w, Deliver(n))
  {
    var node := w.nodes[n];
    var (kept, answer) := Settle(node.config, node.Reading(node.phase.readAt), node.phase.outcome);
    var entry := if kept.Some? then Some(Entry(kept.value, node.phase.readAt, node.phase.executedAt)) else None;
    Issue(Put(w, n, node.(entry := entry, phase := Idle)), if answer.Allocated? then [answer.number] else [])
  }

  /** The numbers first..last in order. */
  function Interval(first: nat, last: nat): (s: seq<int>)
    ensures |s| == if first <= last then last - first + 1 else 0
    ensures forall i :: 0 <= i < |s| ==> s[i] == first + i
    decreases last + 1 - first
  {
    if first > last then [] else [first] + Interval(first + 1, last)
  }

  /** INCR, INCRBY and the floor script: the counter moves to `top` and the last `size` numbers are the caller's. */
  function DoCount(w: World, top: nat, size: nat, delivered: bool): World
    requires 1 <= size <= top
  {
    Issue(w.(redis := w.redis.(counter := top)), if delivered then Interval(top - size + 1, top) else [])
  }

  function Apply(w: World, s: Step): World
    requires Enabled(w, s)
  {
    match s
    case Tick(d) => w.(now := w.now + d)
    case Expire => w.(redis := w.redis.(lease := None))
    case Fast(n, _) => DoFast(w, n)
    case Send(n, t) => DoSend(w, n, t)
    case Execute(q) => DoExecute(w, q)
    case Vanish(q) => w.(inflight := w.inflight - {q})
    case Deliver(n) => DoDeliver(w, n)
    case Fail(n) => Put(w, n, w.nodes[n].(phase := Idle))
    case Restart(n) => Put(w, n, Node(w.nodes[n].config, w.now, None, Idle))
    case Plain(ok) => DoCount(w, w.redis.counter + 1, 1, ok)
    case Batch(size, ok) => DoCount(w, w.redis.counter + size, size, ok)
    case Floor(floor, ok) =>
      DoCount(w, (if w.redis.counter < floor then floor else w.redis.counter) + 1, 1, ok)
  }

  predicate ValidRun(w: World, steps: seq<Step>)
    decreases |steps|
  {
    steps == [] || (Enabled(w, steps[0]) && ValidRun(Apply(w, steps[0]), steps[1..]))
  }

  function After(w: World, steps: seq<Step>): World
    requires ValidRun(w, steps)
    decreases |steps|
  {
    if steps == [] then w else After(Apply(w, steps[0]), steps[1..])
  }
}

/** What every interleaving keeps, with no assumption on timing. */
module LeaseSafety {
  import opened Options
  import opened SequenceRanges
  import opened LeaseScript
  import opened LeasedCore
  import opened LeaseSystem

  ghost predicate Distinct(s: seq<int>) {
    forall i, j :: 0 <= i < j < |s| ==> s[i] != s[j]
  }

  predicate Held(w: World, n: NodeId, k: int) {
    n in w.nodes && w.nodes[n].Holds(k)
  }

  /** A number is held by one node, and there either in its entry or in the reply on its way. */
  ghost predicate OneHolder(w: World) {
    && (forall n, m, k :: Held(w, n, k) && Held(w, m, k) ==> n == m)
    && (forall n, k :: Held(w, n, k) ==> !(w.nodes[n].EntryHolds(k) && w.nodes[n].ReplyHolds(k)))
  }

  ghost predicate HeldUnissued(w: World) {
    forall n, k :: Held(w, n, k) ==> 1 <= k <= w.redis.counter && k !in w.issued
  }

  /** Every number up to the counter has one fate: issued once, held by one node, or abandoned. */
  ghost predicate Accounted(w: World) {
    && w.redis.counter <= MAX_EXACT
    && Distinct(w.issued)
    && (forall k :: k in w.issued ==> 1 <= k <= w.redis.counter)
    && HeldUnissued(w)
    && OneHolder(w)
  }

  ghost predicate TokenOwned(w: World, n: NodeId, token: nat) {
    1 <= token <= |w.owners| && w.owners[token - 1] == n
  }

  /** The fence counts acquisitions; a present lease is the string of the latest one. */
  ghost predicate Fenced(w: World) {
    && |w.owners| == w.redis.fence <= MAX_TOKEN
    && (w.redis.lease.Some? ==>
          w.redis.fence > 0 && w.redis.lease.value.value == LeaseValue(w.owners[w.redis.fence - 1], w.redis.fence))
    && (forall n :: n in w.nodes && w.nodes[n].entry.Some? ==> TokenOwned(w, n, w.nodes[n].entry.value.cs.token))
    && (forall n :: n in w.nodes && w.nodes[n].phase.Replied? && w.nodes[n].phase.outcome.Granted? ==>
          TokenOwned(w, n, w.nodes[n].phase.outcome.token))
  }

  ghost predicate Inv(w: World) {
    Accounted(w) && Fenced(w)
  }

  lemma FencedReadable(w: World)
    requires Fenced(w)
    ensures Readable(w.redis)
  {
    if w.redis.lease.Some? {
      LeaseValueParses(w.owners[w.redis.fence - 1], w.redis.fence);
    }
  }

  /** A grant answers the numbers right above the old counter, under the lease's token. */
  lemma RefillOnLease(r: Redis, now: real, q: Request, writer: NodeId)
    requires r.lease.Some? && r.lease.value.value == LeaseValue(writer, r.fence) && Readable(r)
    requires r.fence <= MAX_TOKEN && r.counter + q.seg <= MAX_EXACT
    ensures var (r', reply) := Refill(r, now, q.node, q.ttl, q.seg, q.expected);
      && r'.fence == r.fence && r'.lease.Some? && r'.lease.value.value == r.lease.value.value
      && r'.counter in {r.counter, r.counter + q.seg}
      && (Decode(reply).Granted? ==>
            && Decode(reply) == Granted(r.fence, r.counter + 1, r.counter + q.seg) && r'.counter == r.counter + q.seg
            && r'.lease.value.expireAt == now + q.ttl as real && q.node == writer)
      && (Decode(reply) == NotOwner && ':' !in writer ==> r' == r)
  {
    if ':' in writer {
      RunOnSplitLease(r, now, q.node, q.ttl, q.seg, q.expected, writer);
    } else {
      RunOnPlainLease(r, now, q.node, q.ttl, q.seg, q.expected, writer);
    }
  }

  lemma RefillOnNone(r: Redis, now: real, q: Request)
    requires r.lease == None && r.fence < MAX_TOKEN && r.counter + q.seg <= MAX_EXACT
    ensures var (r', reply) := Refill(r, now, q.node, q.ttl, q.seg, q.expected);
      && r' == Redis(Some(LeaseKey(LeaseValue(q.node, r.fence + 1), now + q.ttl as real)), r.fence + 1, r.counter + q.seg)
      && Decode(reply) == Granted(r.fence + 1, r.counter + 1, r.counter + q.seg)
  {
  }

  /** What one script run does to the three keys. */
  lemma ExecuteEffect(w: World, q: Request)
    requires Inv(w) && Enabled(w, Execute(q))
    ensures var (redis', reply) := Refill(w.redis, w.now, q.node, q.ttl, q.seg, q.expected);
      && redis'.counter in {w.redis.counter, w.redis.counter + q.seg}
      && redis'.fence == (if w.redis.lease == None then w.redis.fence + 1 else w.redis.fence)
      && redis'.lease.Some?
      && (w.redis.lease.Some? ==> redis'.lease.value.value == w.redis.lease.value.value)
      && (w.redis.lease == None ==> redis'.lease.value.value == LeaseValue(q.node, redis'.fence))
      && (w.redis.lease == None ==> Decode(reply).Granted?)
      && (Decode(reply) == NotOwner && ':' !in w.owners[w.redis.fence - 1] ==> redis' == w.redis)
      && (Decode(reply).Granted? ==>
            && Decode(reply) == Granted(redis'.fence, w.redis.counter + 1, w.redis.counter + q.seg)
            && redis'.counter == w.redis.counter + q.seg
            && redis'.lease.value.expireAt == w.now + q.ttl as real
            && (w.redis.lease.Some? ==> q.node == w.owners[w.redis.fence - 1]))
  {
    if w.redis.lease.Some? {
      RefillOnLease(w.redis, w.now, q, w.owners[w.redis.fence - 1]);
    } else {
      RefillOnNone(w.redis, w.now, q);
    }
  }

  /** The grant part of it: who holds the lease then, until when, and from which number. */
  lemma GrantEffect(w: World, q: Request)
    requires Inv(w) && Enabled(w, Execute(q))
    ensures var o, w' := Decode(Refill(w.redis, w.now, q.node, q.ttl, q.seg, q.expected).1), Apply(w, Execute(q));
      o.Granted? ==>
        && o.start == w.redis.counter + 1 && w'.issued == w.issued && w'.now == w.now
        && w'.redis.lease.Some? && w'.redis.lease.value.expireAt == w.now + q.ttl as real
        && |w'.owners| > 0 && w'.owners[|w'.owners| - 1] == q.node
  {
    ExecuteEffect(w, q);
  }

  lemma AccountedFast(w: World, n: NodeId, t: real)
    requires Accounted(w) && Enabled(w, Fast(n, t))
    ensures Accounted(Apply(w, Fast(n, t)))
  {
    var w' := Apply(w, Fast(n, t));
    var seg := w.nodes[n].entry.value.cs.segment;
    assert Held(w, n, seg.next) && Held(w, n, seg.end);
    assert seg.next <= seg.end <= MAX_EXACT;
    assert w'.nodes[n].entry.value.cs.segment == SequenceRange(seg.next + 1, seg.end);
    forall m, k | Held(w', m, k) ensures Held(w, m, k) && k != seg.next {
      if m != n {
        assert w'.nodes[m] == w.nodes[m] && Held(w, m, k);
      }
    }
  }

  /** What a script run adds is above the counter and reaches its own caller's reply only. */
  lemma HeldAfterExecute(w: World, q: Request)
    requires Inv(w) && Enabled(w, Execute(q))
    ensures var w' := Apply(w, Execute(q));
      && w.redis.counter <= w'.redis.counter <= MAX_EXACT
      && (forall m, k :: Held(w', m, k) ==>
            Held(w, m, k) || (m == q.node && w.redis.counter < k <= w'.redis.counter))
      && (forall m, k :: Held(w', m, k) ==> !(w'.nodes[m].EntryHolds(k) && w'.nodes[m].ReplyHolds(k)))
  {
    ExecuteEffect(w, q);
    var w' := Apply(w, Execute(q));
    assert forall m, k :: Held(w', m, k) && w'.nodes[m].EntryHolds(k) ==> Held(w, m, k);
  }

  lemma AccountedGrow(w: World, w': World, n: NodeId)
    requires Accounted(w) && w'.issued == w.issued && w.redis.counter <= w'.redis.counter <= MAX_EXACT
    requires forall m, k :: Held(w', m, k) ==> Held(w, m, k) || (m == n && w.redis.counter < k <= w'.redis.counter)
    requires forall m, k :: Held(w', m, k) ==> !(w'.nodes[m].EntryHolds(k) && w'.nodes[m].ReplyHolds(k))
    ensures Accounted(w')
  {
  }

  lemma AccountedExecute(w: World, q: Request)
    requires Inv(w) && Enabled(w, Execute(q))
    ensures Accounted(Apply(w, Execute(q)))
  {
    HeldAfterExecute(w, q);
    AccountedGrow(w, Apply(w, Execute(q)), q.node);
  }

  lemma AccountedDeliver(w: World, n: NodeId)
    requires Accounted(w) && Enabled(w, Deliver(n))
    ensures Accounted(Apply(w, Deliver(n)))
  {
    var w' := Apply(w, Deliver(n));
    var o := w.nodes[n].phase.outcome;
    if o.Granted? && o.start <= o.end {
      assert Held(w, n, o.start) && Held(w, n, o.end);
      HeldAfterDeliver(w, n);
    } else {
      assert forall m, k :: Held(w', m, k) ==> Held(w, m, k);
    }
  }

  /** The first number of a delivered segment is issued, the rest stays with its node. */
  lemma HeldAfterDeliver(w: World, n: NodeId)
    requires Accounted(w) && Enabled(w, Deliver(n))
    requires w.nodes[n].phase.outcome.Granted? && w.nodes[n].phase.outcome.start <= w.nodes[n].phase.outcome.end
    ensures var w', first := Apply(w, Deliver(n)), w.nodes[n].phase.outcome.start;
      forall m, k :: Held(w', m, k) ==> Held(w, m, k) && k != first && !w'.nodes[n].ReplyHolds(k)
  {
    var w', o := Apply(w, Deliver(n)), w.nodes[n].phase.outcome;
    assert Held(w, n, o.start) && Held(w, n, o.end);
    assert o.start <= o.end <= MAX_EXACT;
    assert w'.nodes[n].entry.Some? && w'.nodes[n].entry.value.cs.segment == SequenceRange(o.start + 1, o.end);
    assert w'.nodes[n].phase == Idle;
    forall m, k | Held(w', m, k) ensures Held(w, m, k) && k != o.start {
      if m != n {
        assert w'.nodes[m] == w.nodes[m] && Held(w, m, k);
      }
    }
  }

  lemma AccountedCount(w: World, top: nat, size: nat, delivered: bool)
    requires Accounted(w) && 1 <= size && w.redis.counter + size <= top <= MAX_EXACT
    ensures Accounted(DoCount(w, top, size, delivered))
  {
    var w' := DoCount(w, top, size, delivered);
    var numbers := Interval(top - size + 1, top);
    assert forall i :: 0 <= i < |w.issued| ==> w.issued[i] in w.issued;
    assert forall k :: k in numbers ==> w.redis.counter < k <= top;
    assert forall m, k :: Held(w', m, k) ==> Held(w, m, k);
  }

  /** Steps that issue nothing and at most let go of held numbers. */
  lemma AccountedRelease(w: World, w': World)
    requires Accounted(w)
    requires w'.issued == w.issued && w'.redis.counter == w.redis.counter
    requires forall n :: n in w'.nodes ==> n in w.nodes && w'.nodes[n].entry in {None, w.nodes[n].entry}
    requires forall n :: n in w'.nodes && w'.nodes[n].phase.Replied? ==> w'.nodes[n].phase == w.nodes[n].phase
    ensures Accounted(w')
  {
    assert forall m, k :: Held(w', m, k) ==> Held(w, m, k);
  }

  lemma LeaseAfterExecute(w: World, q: Request)
    requires Inv(w) && Enabled(w, Execute(q))
    ensures var w' := Apply(w, Execute(q));
      && w.owners <= w'.owners && |w'.owners| == w'.redis.fence <= MAX_TOKEN && w'.redis.fence > 0
      && w'.redis.lease.Some?
      && w'.redis.lease.value.value == LeaseValue(w'.owners[w'.redis.fence - 1], w'.redis.fence)
  {
    ExecuteEffect(w, q);
  }

  lemma GrantOwned(w: World, q: Request)
    requires Inv(w) && Enabled(w, Execute(q))
    ensures var o := Decode(Refill(w.redis, w.now, q.node, q.ttl, q.seg, q.expected).1);
      o.Granted? ==> TokenOwned(Apply(w, Execute(q)), q.node, o.token)
  {
    ExecuteEffect(w, q);
  }

  lemma FencedExecute(w: World, q: Request)
    requires Inv(w) && Enabled(w, Execute(q))
    ensures Fenced(Apply(w, Execute(q)))
  {
    var w' := Apply(w, Execute(q));
    LeaseAfterExecute(w, q);
    GrantOwned(w, q);
    assert forall n, t :: TokenOwned(w, n, t) ==> TokenOwned(w', n, t);
    forall n | n in w'.nodes && w'.nodes[n].phase.Replied? && w'.nodes[n].phase.outcome.Granted?
      ensures TokenOwned(w', n, w'.nodes[n].phase.outcome.token)
    {
      if w'.nodes[n] == w.nodes[n] {
        assert TokenOwned(w, n, w.nodes[n].phase.outcome.token);
      }
    }
  }

  lemma FencedDeliver(w: World, n: NodeId)
    requires Fenced(w) && Enabled(w, Deliver(n))
    ensures Fenced(Apply(w, Deliver(n)))
  {
    var w' := Apply(w, Deliver(n));
    assert forall m, t :: TokenOwned(w, m, t) ==> TokenOwned(w', m, t);
  }

  lemma FencedOther(w: World, w': World)
    requires Fenced(w)
    requires w'.owners == w.owners && w'.redis.fence == w.redis.fence && w'.redis.lease in {None, w.redis.lease}
    requires forall n :: n in w'.nodes ==>
      n in w.nodes &&
      (w'.nodes[n].entry == None || (w.nodes[n].entry.Some? && w'.nodes[n].entry.value.cs.token == w.nodes[n].entry.value.cs.token))
    requires forall n :: n in w'.nodes && w'.nodes[n].phase.Replied? ==> w'.nodes[n].phase == w.nodes[n].phase
    ensures Fenced(w')
  {
    assert forall n, t :: TokenOwned(w, n, t) ==> TokenOwned(w', n, t);
  }

  lemma InvCount(w: World, top: nat, size: nat, delivered: bool, w': World)
    requires Inv(w) && 1 <= size && w.redis.counter + size <= top <= MAX_EXACT
    requires w' == DoCount(w, top, size, delivered)
    ensures Inv(w')
  {
    AccountedCount(w, top, size, delivered);
    FencedOther(w, w');
  }

  lemma InvCounting(w: World, s: Step)
    requires Inv(w) && Enabled(w, s) && (s.Plain? || s.Batch? || s.Floor?)
    ensures Inv(Apply(w, s))
  {
    var counter, w' := w.redis.counter, Apply(w, s);
    match s
    case Plain(ok) => InvCount(w, counter + 1, 1, ok, w');
    case Batch(size, ok) => InvCount(w, counter + size, size, ok, w');
    case Floor(floor, ok) => InvCount(w, (if counter < floor then floor else counter) + 1, 1, ok, w');
  }

  lemma InvFast(w: World, n: NodeId, t: real)
    requires Inv(w) && Enabled(w, Fast(n, t))
    ensures Inv(Apply(w, Fast(n, t)))
  {
    AccountedFast(w, n, t);
    FencedOther(w, Apply(w, Fast(n, t)));
  }

  lemma InvQuiet(w: World, s: Step)
    requires Inv(w) && Enabled(w, s)
    requires s.Tick? || s.Expire? || s.Send? || s.Vanish? || s.Fail? || s.Restart?
    ensures Inv(Apply(w, s))
  {
    AccountedRelease(w, Apply(w, s));
    FencedOther(w, Apply(w, s));
  }

  lemma InvExecute(w: World, q: Request)
    requires Inv(w) && Enabled(w, Execute(q))
    ensures Inv(Apply(w, Execute(q)))
  {
    AccountedExecute(w, q);
    FencedExecute(w, q);
  }

  lemma InvDeliver(w: World, n: NodeId)
    requires Inv(w) && Enabled(w, Deliver(n))
    ensures Inv(Apply(w, Deliver(n)))
  {
    AccountedDeliver(w, n);
    FencedDeliver(w, n);
  }

  lemma InvStep(w: World, s: Step)
    requires Inv(w) && Enabled(w, s)
    ensures Inv(Apply(w, s))
  {
    match s
    case Execute(q) => InvExecute(w, q);
    case Deliver(n) => InvDeliver(w, n);
    case Fast(n, t) => InvFast(w, n, t);
    case Plain(_) => InvCounting(w, s);
    case Batch(_, _) => InvCounting(w, s);
    case Floor(_, _) => InvCounting(w, s);
    case _ => InvQuiet(w, s);
  }

  lemma {:induction false} InvRun(w: World, steps: seq<Step>)
    requires Inv(w) && ValidRun(w, steps)
    ensures Inv(After(w, steps))
    decreases |steps|
  {
    if steps != [] {
      InvStep(w, steps[0]);
      InvRun(Apply(w, steps[0]), steps[1..]);
    }
  }

  lemma InvInit(configs: map<NodeId, Config>)
    ensures Inv(Init(configs))
  {
    var w := Init(configs);
    assert forall n, k :: !Held(w, n, k);
  }

  /** In every interleaving: no number twice, one fate per number, and a fenced lease. */
  lemma UniqueInEveryRun(configs: map<NodeId, Config>, steps: seq<Step>)
    requires ValidRun(Init(configs), steps)
    ensures Accounted(After(Init(configs), steps))
  {
    InvInit(configs);
    InvRun(Init(configs), steps);
  }

  ghost predicate Abandoned(w: World, k: int) {
    1 <= k <= w.redis.counter && k !in w.issued && forall n :: !Held(w, n, k)
  }

  lemma AbandonedExecute(w: World, q: Request, k: int)
    requires Inv(w) && Enabled(w, Execute(q)) && Abandoned(w, k)
    ensures Abandoned(Apply(w, Execute(q)), k)
  {
    HeldAfterExecute(w, q);
    assert forall m :: Held(Apply(w, Execute(q)), m, k) ==> Held(w, m, k);
  }

  lemma AbandonedIssue(w: World, s: Step, k: int)
    requires Inv(w) && Enabled(w, s) && Abandoned(w, k) && (s.Fast? || s.Deliver?)
    ensures Abandoned(Apply(w, s), k)
  {
    var w' := Apply(w, s);
    if s.Fast? {
      assert Held(w, s.node, w.nodes[s.node].entry.value.cs.segment.next);
    } else {
      var o := w.nodes[s.node].phase.outcome;
      if o.Granted? && o.start <= o.end {
        assert Held(w, s.node, o.start);
      }
    }
    assert forall m :: Held(w', m, k) ==> Held(w, m, k);
  }

  lemma AbandonedStep(w: World, s: Step, k: int)
    requires Inv(w) && Enabled(w, s) && Abandoned(w, k)
    ensures Abandoned(Apply(w, s), k)
  {
    if s.Execute? {
      AbandonedExecute(w, s.req, k);
    } else if s.Fast? || s.Deliver? {
      AbandonedIssue(w, s, k);
    } else {
      assert forall m :: Held(Apply(w, s), m, k) ==> Held(w, m, k);
    }
  }

  /** A number that left every holder without being issued is never issued later. */
  lemma {:induction false} AbandonedForever(w: World, steps: seq<Step>, k: int)
    requires Inv(w) && ValidRun(w, steps) && Abandoned(w, k)
    ensures Abandoned(After(w, steps), k)
    decreases |steps|
  {
    if steps != [] {
      InvStep(w, steps[0]);
      AbandonedStep(w, steps[0], k);
      AbandonedForever(Apply(w, steps[0]), steps[1..], k);
    }
  }

  /** In every run the lease is the string of the latest acquisition, and no token ever changes owner. */
  lemma {:induction false} FencedInEveryRun(configs: map<NodeId, Config>, steps: seq<Step>, more: seq<Step>)
    requires ValidRun(Init(configs), steps) && ValidRun(After(Init(configs), steps), more)
    ensures Fenced(After(Init(configs), steps))
    ensures After(Init(configs), steps).owners <= After(After(Init(configs), steps), more).owners
  {
    InvInit(configs);
    InvRun(Init(configs), steps);
    OwnersOnlyGrow(After(Init(configs), steps), more);
  }

  lemma {:induction false} OwnersOnlyGrow(w: World, steps: seq<Step>)
    requires ValidRun(w, steps)
    ensures w.owners <= After(w, steps).owners
    decreases |steps|
  {
    if steps != [] {
      OwnersOnlyGrow(Apply(w, steps[0]), steps[1..]);
    }
  }

  /**
   The script a node sends from its slow path is granted on a present lease iff the node wrote that
   lease, its id has no ':', and its entry, if it has one, carries the current token.
   */
  lemma SlowPathFenced(w: World, n: NodeId, t: real, q: Request)
    requires Inv(w) && Enabled(w, Send(n, t)) && w.redis.lease.Some?
    requires q in Apply(w, Send(n, t)).inflight && q.id == w.nextId && (forall p :: p in w.inflight ==> p.id < w.nextId)
    ensures q.node == n && Readable(w.redis)
    ensures Decode(Refill(w.redis, w.now, n, q.ttl, q.seg, q.expected).1).Granted? <==>
      && n == w.owners[w.redis.fence - 1] && ':' !in n
      && (w.nodes[n].entry.Some? ==> w.nodes[n].entry.value.cs.token == w.redis.fence)
  {
    FencedReadable(w);
    GrantOnLiveLease(w.redis, w.now, n, q.ttl, q.seg, q.expected, w.owners[w.redis.fence - 1]);
  }

  /** A grant while a lease is present renews it under the same token, and goes to its writer only. */
  lemma NoGrantToOthers(w: World, q: Request)
    requires Inv(w) && Enabled(w, Execute(q)) && w.redis.lease.Some?
    ensures var (redis', reply) := Refill(w.redis, w.now, q.node, q.ttl, q.seg, q.expected);
      && redis'.fence == w.redis.fence
      && (Decode(reply).Granted? ==>
            && q.node == w.owners[|w.owners| - 1]
            && Decode(reply).token == w.redis.fence)
  {
    ExecuteEffect(w, q);
  }
}
