/** Order of the issued numbers across lease hand-over, and the exact latency it needs. */
module LeaseOrder {
  import opened Options
  import opened Integers
  import opened SequenceRanges
  import opened LeaseScript
  import opened LeasedCore
  import opened LeaseSystem
  import opened LeaseSafety

  /** The largest delay from clock read to issue each node may show. */
  type Slack = NodeId -> real

  /**
   Only leased allocation runs, and whoever issues does so soon enough after its clock read. A
   refused call, which issues nothing, may come back at any time.
   */
  predicate Timely(w: World, s: Step, slack: Slack) {
    match s
    case Fast(n, t) => w.now <= t + slack(n)
    case Deliver(n) =>
      n in w.nodes && w.nodes[n].phase.Replied? && w.nodes[n].phase.outcome.Granted? ==>
        w.now <= w.nodes[n].phase.readAt + slack(n)
    case Plain(_) => false
    case Batch(_, _) => false
    case Floor(_, _) => false
    case _ => true
  }

  predicate TimelyRun(w: World, steps: seq<Step>, slack: Slack)
    requires ValidRun(w, steps)
    decreases |steps|
  {
    steps == [] || (Timely(w, steps[0], slack) && TimelyRun(Apply(w, steps[0]), steps[1..], slack))
  }

  /** `m` can write the expiry of a lease that `n` wrote: it is `n`, or `n` up to its first ':'. */
  predicate Reaches(m: NodeId, n: NodeId) {
    m == n || m == OwnerOf(n)
  }

  /** How long after its grant a segment of several numbers may still be issued from. */
  function Tail(c: Config, delay: real): real {
    (c.ttl - c.margin) as real + delay
  }

  /** For each node, a time from the grant of a segment by which its last number is issued. */
  type Horizon = NodeId -> real

  /** Whoever can write the expiry of a node's lease writes one no earlier than the node's horizon. */
  ghost predicate Protected(w: World, horizon: Horizon) {
    forall n, m :: n in w.nodes && m in w.nodes && Reaches(m, n) ==> horizon(n) <= w.nodes[m].config.ttl as real
  }

  /** The horizon lies past every delivery, and past every later issue if a segment has more than one number. */
  predicate Spans(c: Config, delay: real, horizon: real) {
    delay < horizon && (c.segmentSize > 1 ==> Tail(c, delay) <= horizon)
  }

  ghost predicate AllSpan(w: World, slack: Slack, horizon: Horizon) {
    forall n :: n in w.nodes ==> Spans(w.nodes[n].config, slack(n), horizon(n))
  }

  /** A segment granted to `n` at `granted` may still be used, so `n` must own the lease until then. */
  ghost predicate Covers(w: World, n: NodeId, granted: real, first: int, until: real) {
    granted <= w.now &&
    (w.now < until ==>
      && w.redis.lease.Some? && |w.owners| > 0 && w.owners[|w.owners| - 1] == n
      && w.redis.lease.value.expireAt >= until
      && (forall k :: k in w.issued ==> k < first))
  }

  /** The reply on its way: covered, and a single number if segments are. */
  ghost predicate ReplyOrdered(w: World, n: NodeId, node: Node, horizon: real) {
    node.phase.Replied? ==>
      && node.base <= node.phase.readAt <= node.phase.executedAt
      && (node.phase.outcome.Granted? ==>
            && Covers(w, n, node.phase.executedAt, node.phase.outcome.start, node.phase.executedAt + horizon)
            && (node.config.segmentSize == 1 ==> node.phase.outcome.end <= node.phase.outcome.start))
  }

  /** The entry: covered, valid no longer than the margin allows, and used up if segments are single numbers. */
  ghost predicate EntryOrdered(w: World, n: NodeId, node: Node, horizon: real)
    requires node.config.Valid()
  {
    node.entry.Some? ==>
      var e := node.entry.value;
      && node.base <= e.readAt <= e.grantedAt
      && e.cs.validUntil == ValidUntil(node.config, node.Reading(e.readAt))
      && Covers(w, n, e.grantedAt, e.cs.segment.next, e.grantedAt + horizon)
      && (node.config.segmentSize == 1 ==> e.cs.segment.end < e.cs.segment.next)
  }

  ghost predicate NodeOrdered(w: World, n: NodeId, horizon: real)
    requires n in w.nodes
  {
    var node := w.nodes[n];
    && node.config.Valid() && node.base <= w.now
    && (node.phase.Waiting? ==> node.base <= node.phase.readAt <= w.now)
    && ReplyOrdered(w, n, node, horizon) && EntryOrdered(w, n, node, horizon)
  }

  ghost predicate Ordered(w: World, horizon: Horizon) {
    && Increasing(w.issued)
    && (forall n :: n in w.nodes ==> NodeOrdered(w, n, horizon(n)))
    && (forall q :: q in w.inflight && q.node in w.nodes ==> AsConfigured(q, w.nodes[q.node].config))
  }

  predicate AsConfigured(q: Request, c: Config) {
    q.ttl == c.ttl && q.seg == c.segmentSize
  }

  ghost predicate SameConfigs(w: World, w': World) {
    && w'.nodes.Keys == w.nodes.Keys
    && (forall n :: n in w.nodes ==> w'.nodes[n].config == w.nodes[n].config)
  }

  lemma ConfigsKept(w: World, s: Step)
    requires Enabled(w, s)
    ensures SameConfigs(w, Apply(w, s))
  {
  }

  lemma IncreasingAppend(s: seq<int>, s': seq<int>)
    requires Increasing(s) && |s'| == |s| + 1 && s < s' && forall j :: j in s ==> j < s'[|s|]
    ensures Increasing(s')
  {
    assert forall i :: 0 <= i < |s| ==> s'[i] == s[i] && s[i] in s;
  }

  /** Truncating both readings to whole milliseconds never lengthens the validity. */
  lemma ReadingGap(node: Node, granted: real, read: real)
    requires node.config.Valid() && node.base <= granted && node.base <= read
    requires node.Reading(read) < ValidUntil(node.config, node.Reading(granted))
    ensures read < granted + (node.config.ttl - node.config.margin) as real
  {
    var gap := node.config.ttl - node.config.margin;
    assert node.Reading(read) + 1 <= node.Reading(granted) + gap;
    assert read - node.base < node.Reading(read) as real + 1.0;
    assert granted - node.base >= node.Reading(granted) as real;
  }

  /** Whoever issues in time owns the lease at that moment, and its number exceeds all issued ones. */
  lemma IssuerOwnsLease(w: World, s: Step, slack: Slack, horizon: Horizon)
    requires Inv(w) && Ordered(w, horizon) && AllSpan(w, slack, horizon) && Enabled(w, s) && Timely(w, s, slack)
    requires |Apply(w, s).issued| > |w.issued|
    ensures s.Fast? || s.Deliver?
    ensures |w.owners| > 0 && w.owners[|w.owners| - 1] == s.node && w.redis.lease.Some?
    ensures var issued' := Apply(w, s).issued;
      |issued'| == |w.issued| + 1 && w.issued < issued' && forall j :: j in w.issued ==> j < issued'[|w.issued|]
  {
    match s
    case Fast(n, t) => FastOwnsLease(w, n, t, slack(n), horizon(n));
    case Deliver(n) => DeliverOwnsLease(w, n, slack(n), horizon(n));
    case _ =>
  }

  lemma FastOwnsLease(w: World, n: NodeId, t: real, delay: real, horizon: real)
    requires Enabled(w, Fast(n, t)) && w.now <= t + delay
    requires NodeOrdered(w, n, horizon) && Spans(w.nodes[n].config, delay, horizon)
    ensures w.nodes[n].config.segmentSize > 1
    ensures |w.owners| > 0 && w.owners[|w.owners| - 1] == n && w.redis.lease.Some?
    ensures var first := w.nodes[n].entry.value.cs.segment.next;
      Apply(w, Fast(n, t)).issued == w.issued + [first] && forall j :: j in w.issued ==> j < first
  {
    var node := w.nodes[n];
    ReadingGap(node, node.entry.value.readAt, t);
  }

  lemma DeliverOwnsLease(w: World, n: NodeId, delay: real, horizon: real)
    requires Enabled(w, Deliver(n)) && w.now <= w.nodes[n].phase.readAt + delay
    requires NodeOrdered(w, n, horizon) && Spans(w.nodes[n].config, delay, horizon)
    requires |Apply(w, Deliver(n)).issued| > |w.issued|
    ensures |w.owners| > 0 && w.owners[|w.owners| - 1] == n && w.redis.lease.Some?
    ensures w.nodes[n].phase.outcome.Granted?
    ensures var first := w.nodes[n].phase.outcome.start;
      Apply(w, Deliver(n)).issued == w.issued + [first] && forall j :: j in w.issued ==> j < first
  {
  }

  /** A script run leaves a present lease alone or moves its expiry to a full lease time from now. */
  lemma ExpiryAfterRefill(r: Redis, now: real, q: Request, writer: NodeId)
    requires Readable(r) && r.lease.Some? && r.lease.value.value == LeaseValue(writer, r.fence)
    ensures var r' := Refill(r, now, q.node, q.ttl, q.seg, q.expected).0;
      && r'.lease.Some?
      && (r'.lease.value.expireAt == r.lease.value.expireAt ||
          (Reaches(q.node, writer) && r'.lease.value.expireAt == now + q.ttl as real))
  {
    OwnerOfLease(writer, r.fence);
  }

  lemma CoversAfterExecute(w: World, q: Request, n: NodeId, granted: real, first: int, until: real)
    requires Inv(w) && Enabled(w, Execute(q)) && Covers(w, n, granted, first, until)
    requires Reaches(q.node, n) ==> until <= w.now + q.ttl as real
    ensures Covers(Apply(w, Execute(q)), n, granted, first, until)
  {
    ExecuteEffect(w, q);
    if w.redis.lease.Some? {
      ExpiryAfterRefill(w.redis, w.now, q, w.owners[w.redis.fence - 1]);
    }
  }

  /** The node whose script just ran: a grant is covered by the lease it wrote or renewed. */
  lemma CoversGrant(w: World, q: Request, until: real)
    requires Inv(w) && Enabled(w, Execute(q)) && until <= w.now + q.ttl as real
    ensures var o := Decode(Refill(w.redis, w.now, q.node, q.ttl, q.seg, q.expected).1);
      o.Granted? ==> Covers(Apply(w, Execute(q)), q.node, w.now, o.start, until)
  {
    GrantEffect(w, q);
  }

  lemma EntryOrderedExecute(w: World, q: Request, n: NodeId, horizon: real)
    requires Inv(w) && Enabled(w, Execute(q)) && n in w.nodes && NodeOrdered(w, n, horizon)
    requires Reaches(q.node, n) ==> horizon <= q.ttl as real
    ensures EntryOrdered(Apply(w, Execute(q)), n, w.nodes[n], horizon)
  {
    if w.nodes[n].entry.Some? {
      var e := w.nodes[n].entry.value;
      CoversAfterExecute(w, q, n, e.grantedAt, e.cs.segment.next, e.grantedAt + horizon);
    }
  }

  lemma ReplyOrderedExecute(w: World, q: Request, n: NodeId, horizon: real)
    requires Inv(w) && Enabled(w, Execute(q)) && n in w.nodes && NodeOrdered(w, n, horizon)
    requires Reaches(q.node, n) ==> horizon <= q.ttl as real
    ensures ReplyOrdered(Apply(w, Execute(q)), n, w.nodes[n], horizon)
  {
    var phase := w.nodes[n].phase;
    if phase.Replied? && phase.outcome.Granted? {
      CoversAfterExecute(w, q, n, phase.executedAt, phase.outcome.start, phase.executedAt + horizon);
    }
  }

  /** The reply a script run leaves for its own caller. */
  lemma GrantOrdered(w: World, q: Request, horizon: real)
    requires Inv(w) && Enabled(w, Execute(q)) && AsConfigured(q, w.nodes[q.node].config)
    requires horizon <= q.ttl as real && NodeOrdered(w, q.node, horizon)
    ensures var node := w.nodes[q.node];
      var o := Decode(Refill(w.redis, w.now, q.node, q.ttl, q.seg, q.expected).1);
      node.phase.Waiting? ==>
        ReplyOrdered(Apply(w, Execute(q)), q.node, node.(phase := Replied(node.phase.readAt, o, w.now)), horizon)
  {
    CoversGrant(w, q, w.now + horizon);
    ExecuteEffect(w, q);
  }

  lemma NodeOrderedExecute(w: World, q: Request, n: NodeId, horizon: real)
    requires Inv(w) && Enabled(w, Execute(q)) && n in w.nodes && NodeOrdered(w, n, horizon)
    requires AsConfigured(q, w.nodes[q.node].config)
    requires Reaches(q.node, n) ==> horizon <= q.ttl as real
    ensures NodeOrdered(Apply(w, Execute(q)), n, horizon)
  {
    EntryOrderedExecute(w, q, n, horizon);
    ReplyOrderedExecute(w, q, n, horizon);
    if n == q.node {
      GrantOrdered(w, q, horizon);
    }
  }

  lemma OrderedExecute(w: World, q: Request, horizon: Horizon)
    requires Inv(w) && Ordered(w, horizon) && Protected(w, horizon) && Enabled(w, Execute(q))
    ensures Ordered(Apply(w, Execute(q)), horizon)
  {
    forall n | n in w.nodes ensures NodeOrdered(Apply(w, Execute(q)), n, horizon(n)) {
      NodeOrderedExecute(w, q, n, horizon(n));
    }
  }

  /** The other nodes, once the lease's owner has issued: they have no usable segment. */
  lemma NodeOrderedIssue(w: World, w': World, n: NodeId, m: NodeId, horizon: real)
    requires m in w.nodes && m in w'.nodes && m != n && w'.nodes[m] == w.nodes[m] && NodeOrdered(w, m, horizon)
    requires w'.now == w.now && |w.owners| > 0 && w.owners[|w.owners| - 1] == n
    ensures NodeOrdered(w', m, horizon)
  {
  }

  lemma NodeOrderedQuiet(w: World, w': World, m: NodeId, horizon: real)
    requires m in w.nodes && m in w'.nodes && w'.nodes[m] == w.nodes[m] && NodeOrdered(w, m, horizon)
    requires w'.now == w.now && w'.owners == w.owners && w'.redis == w.redis && w'.issued == w.issued
    ensures NodeOrdered(w', m, horizon)
  {
  }

  /** The node that issued from its reply: the rest of the segment is covered as the reply was. */
  lemma DelivererOrdered(w: World, n: NodeId, delay: real, horizon: real)
    requires Inv(w) && Enabled(w, Deliver(n))
    requires w.nodes[n].phase.outcome.Granted? ==> w.now <= w.nodes[n].phase.readAt + delay
    requires NodeOrdered(w, n, horizon) && Spans(w.nodes[n].config, delay, horizon)
    ensures NodeOrdered(Apply(w, Deliver(n)), n, horizon)
  {
    var o := w.nodes[n].phase.outcome;
    if o.Granted? && o.start <= o.end {
      assert Held(w, n, o.start);
      DeliverOwnsLease(w, n, delay, horizon);
    }
  }

  lemma OrderedDeliver(w: World, n: NodeId, slack: Slack, horizon: Horizon)
    requires Inv(w) && Ordered(w, horizon) && AllSpan(w, slack, horizon)
    requires Enabled(w, Deliver(n)) && Timely(w, Deliver(n), slack)
    ensures Ordered(Apply(w, Deliver(n)), horizon)
  {
    var w' := Apply(w, Deliver(n));
    DelivererOrdered(w, n, slack(n), horizon(n));
    if |w'.issued| > |w.issued| {
      IssuerOwnsLease(w, Deliver(n), slack, horizon);
      IncreasingAppend(w.issued, w'.issued);
      forall m | m in w'.nodes && m != n ensures NodeOrdered(w', m, horizon(m)) {
        NodeOrderedIssue(w, w', n, m, horizon(m));
      }
    } else {
      assert w'.issued == w.issued;
      forall m | m in w'.nodes && m != n ensures NodeOrdered(w', m, horizon(m)) {
        NodeOrderedQuiet(w, w', m, horizon(m));
      }
    }
  }

  lemma FastOrdered(w: World, n: NodeId, t: real, delay: real, horizon: real)
    requires Inv(w) && Enabled(w, Fast(n, t)) && w.now <= t + delay
    requires NodeOrdered(w, n, horizon) && Spans(w.nodes[n].config, delay, horizon)
    ensures NodeOrdered(Apply(w, Fast(n, t)), n, horizon)
  {
    var segment := w.nodes[n].entry.value.cs.segment;
    assert Held(w, n, segment.next);
    FastOwnsLease(w, n, t, delay, horizon);
  }

  lemma OrderedFast(w: World, n: NodeId, t: real, slack: Slack, horizon: Horizon)
    requires Inv(w) && Ordered(w, horizon) && AllSpan(w, slack, horizon)
    requires Enabled(w, Fast(n, t)) && Timely(w, Fast(n, t), slack)
    ensures Ordered(Apply(w, Fast(n, t)), horizon)
  {
    var w' := Apply(w, Fast(n, t));
    FastOrdered(w, n, t, slack(n), horizon(n));
    FastOwnsLease(w, n, t, slack(n), horizon(n));
    IncreasingAppend(w.issued, w'.issued);
    forall m | m in w'.nodes && m != n ensures NodeOrdered(w', m, horizon(m)) {
      NodeOrderedIssue(w, w', n, m, horizon(m));
    }
  }

  /** Time and expiry: an expired lease covers no segment. */
  lemma OrderedTime(w: World, s: Step, horizon: Horizon)
    requires Ordered(w, horizon) && Enabled(w, s) && (s.Tick? || s.Expire?)
    ensures Ordered(Apply(w, s), horizon)
  {
    var w' := Apply(w, s);
    forall m | m in w'.nodes ensures NodeOrdered(w', m, horizon(m)) {
      assert NodeOrdered(w, m, horizon(m));
    }
  }

  /** A call begun, given up, or a process started anew. */
  ghost predicate LocalChange(now: real, node: Node, node': Node) {
    node'.config == node.config &&
    ((node'.base == node.base && node'.entry == node.entry &&
      (node'.phase.Idle? || (node'.phase.Waiting? && node.base <= node'.phase.readAt <= now))) ||
     node' == Node(node.config, now, None, Idle))
  }

  lemma NodeOrderedLocal(w: World, w': World, n: NodeId, horizon: real)
    requires n in w.nodes && n in w'.nodes && NodeOrdered(w, n, horizon) && LocalChange(w.now, w.nodes[n], w'.nodes[n])
    requires w'.now == w.now && w'.owners == w.owners && w'.redis == w.redis && w'.issued == w.issued
    ensures NodeOrdered(w', n, horizon)
  {
    var node' := w'.nodes[n];
    if node'.entry.Some? {
      assert EntryOrdered(w', n, node', horizon) by {
        assert EntryOrdered(w, n, w.nodes[n], horizon);
      }
    }
  }

  lemma OrderedLocal(w: World, w': World, n: NodeId, horizon: Horizon)
    requires Ordered(w, horizon) && n in w.nodes && w'.nodes.Keys == w.nodes.Keys
    requires w'.now == w.now && w'.owners == w.owners && w'.redis == w.redis && w'.issued == w.issued
    requires LocalChange(w.now, w.nodes[n], w'.nodes[n])
    requires forall m :: m in w.nodes && m != n ==> w'.nodes[m] == w.nodes[m]
    requires forall q :: q in w'.inflight ==> q in w.inflight || (q.node == n && AsConfigured(q, w.nodes[n].config))
    ensures Ordered(w', horizon)
  {
    NodeOrderedLocal(w, w', n, horizon(n));
    forall m | m in w'.nodes && m != n ensures NodeOrdered(w', m, horizon(m)) {
      NodeOrderedQuiet(w, w', m, horizon(m));
    }
  }

  lemma OrderedCall(w: World, s: Step, horizon: Horizon)
    requires Ordered(w, horizon) && Enabled(w, s) && (s.Send? || s.Fail? || s.Restart?)
    ensures Ordered(Apply(w, s), horizon)
  {
    OrderedLocal(w, Apply(w, s), s.node, horizon);
  }

  lemma OrderedVanish(w: World, q: Request, horizon: Horizon)
    requires Ordered(w, horizon) && Enabled(w, Vanish(q))
    ensures Ordered(Apply(w, Vanish(q)), horizon)
  {
    var w' := Apply(w, Vanish(q));
    forall m | m in w'.nodes ensures NodeOrdered(w', m, horizon(m)) {
      NodeOrderedQuiet(w, w', m, horizon(m));
    }
  }

  lemma OrderedStep(w: World, s: Step, slack: Slack, horizon: Horizon)
    requires Inv(w) && Ordered(w, horizon) && Protected(w, horizon) && AllSpan(w, slack, horizon)
    requires Enabled(w, s) && Timely(w, s, slack)
    ensures Ordered(Apply(w, s), horizon)
  {
    match s
    case Fast(n, t) => OrderedFast(w, n, t, slack, horizon);
    case Execute(q) => OrderedExecute(w, q, horizon);
    case Deliver(n) => OrderedDeliver(w, n, slack, horizon);
    case Tick(_) => OrderedTime(w, s, horizon);
    case Expire => OrderedTime(w, s, horizon);
    case Vanish(q) => OrderedVanish(w, q, horizon);
    case Send(n, _) => OrderedCall(w, s, horizon);
    case Fail(n) => OrderedCall(w, s, horizon);
    case Restart(n) => OrderedCall(w, s, horizon);
  }

  lemma ProtectedStep(w: World, s: Step, slack: Slack, horizon: Horizon)
    requires Protected(w, horizon) && AllSpan(w, slack, horizon) && Enabled(w, s)
    ensures Protected(Apply(w, s), horizon) && AllSpan(Apply(w, s), slack, horizon)
  {
    ConfigsKept(w, s);
  }

  lemma {:induction false} OrderedRun(w: World, steps: seq<Step>, slack: Slack, horizon: Horizon)
    requires Inv(w) && Ordered(w, horizon) && Protected(w, horizon) && AllSpan(w, slack, horizon)
    requires ValidRun(w, steps) && TimelyRun(w, steps, slack)
    ensures Increasing(After(w, steps).issued)
    decreases |steps|
  {
    if steps != [] {
      InvStep(w, steps[0]);
      OrderedStep(w, steps[0], slack, horizon);
      ProtectedStep(w, steps[0], slack, horizon);
      OrderedRun(Apply(w, steps[0]), steps[1..], slack, horizon);
    }
  }

  ghost predicate AllValid(configs: map<NodeId, Config>) {
    forall n :: n in configs ==> configs[n].Valid()
  }

  /** Every timely run hands out increasing numbers, over all nodes together. */
  ghost predicate OrderSafe(configs: map<NodeId, Config>, slack: Slack) {
    forall steps :: ValidRun(Init(configs), steps) && TimelyRun(Init(configs), steps, slack) ==>
      Increasing(After(Init(configs), steps).issued)
  }

  /**
   Every number of a segment of `n` is issued before a lease time written by `m` runs out: the last
   delivery in time, and with more than one number the last issue from the entry too.
   */
  predicate Outlasts(configs: map<NodeId, Config>, slack: Slack, m: NodeId, n: NodeId)
    requires m in configs && n in configs
  {
    if configs[n].segmentSize == 1 then slack(n) < configs[m].ttl as real
    else Tail(configs[n], slack(n)) <= configs[m].ttl as real
  }

  ghost predicate AllOutlast(configs: map<NodeId, Config>, slack: Slack) {
    forall n, m :: n in configs && m in configs && Reaches(m, n) ==> Outlasts(configs, slack, m, n)
  }

  /** The horizon a node can be given: its tail, or for single numbers the shortest lease time on its lease. */
  function HorizonOf(configs: map<NodeId, Config>, slack: Slack, n: NodeId): real {
    if n !in configs then 0.0
    else if configs[n].segmentSize > 1 then Tail(configs[n], slack(n))
    else
      var c, o := configs[n], OwnerOf(n);
      if o in configs && configs[o].ttl < c.ttl then configs[o].ttl as real else c.ttl as real
  }

  lemma HorizonFits(configs: map<NodeId, Config>, slack: Slack)
    requires AllValid(configs) && AllOutlast(configs, slack)
    ensures var w, horizon := Init(configs), (n: NodeId) => HorizonOf(configs, slack, n);
      Protected(w, horizon) && AllSpan(w, slack, horizon)
  {
    var w, horizon := Init(configs), (n: NodeId) => HorizonOf(configs, slack, n);
    forall n, m | n in w.nodes && m in w.nodes && Reaches(m, n) ensures horizon(n) <= w.nodes[m].config.ttl as real {
      assert Outlasts(configs, slack, m, n);
    }
    forall n | n in w.nodes ensures Spans(w.nodes[n].config, slack(n), horizon(n)) {
      assert Reaches(n, n) && Outlasts(configs, slack, n, n);
      assert OwnerOf(n) in configs ==> Reaches(OwnerOf(n), n) && Outlasts(configs, slack, OwnerOf(n), n);
    }
  }

  /** Order across hand-over, for every run of nodes whose segments never outlast a lease. */
  lemma OrderAcrossHandover(configs: map<NodeId, Config>, slack: Slack)
    requires AllValid(configs) && AllOutlast(configs, slack)
    ensures OrderSafe(configs, slack)
  {
    var w, horizon := Init(configs), (n: NodeId) => HorizonOf(configs, slack, n);
    InvInit(configs);
    HorizonFits(configs, slack);
    forall n | n in w.nodes ensures NodeOrdered(w, n, horizon(n)) {
      assert w.nodes[n] == Node(configs[n], 0.0, None, Idle);
    }
    forall steps | ValidRun(w, steps) && TimelyRun(w, steps, slack)
      ensures Increasing(After(w, steps).issued)
    {
      OrderedRun(w, steps, slack, horizon);
    }
  }

  /** With ids free of ':', or one lease time for all, issuing within the margin of the clock read is enough. */
  lemma OrderWithinMargin(configs: map<NodeId, Config>, slack: Slack)
    requires AllValid(configs) && forall n :: n in configs ==> slack(n) <= configs[n].margin as real
    requires (forall n :: n in configs ==> ':' !in n) ||
             (forall n, m :: n in configs && m in configs ==> configs[n].ttl == configs[m].ttl)
    ensures OrderSafe(configs, slack)
  {
    forall n, m | n in configs && m in configs && Reaches(m, n) ensures Outlasts(configs, slack, m, n) {
      assert ':' !in n ==> OwnerOf(n) == n;
    }
    OrderAcrossHandover(configs, slack);
  }

  lemma {:induction false} Extend(w: World, steps: seq<Step>, s: Step, slack: Slack)
    requires ValidRun(w, steps) && TimelyRun(w, steps, slack)
    requires Enabled(After(w, steps), s) && Timely(After(w, steps), s, slack)
    ensures ValidRun(w, steps + [s]) && TimelyRun(w, steps + [s], slack)
    ensures After(w, steps + [s]) == Apply(After(w, steps), s)
    decreases |steps|
  {
    if steps == [] {
      assert (steps + [s])[1..] == [];
    } else {
      Extend(Apply(w, steps[0]), steps[1..], s, slack);
      assert (steps + [s])[1..] == steps[1..] + [s];
    }
  }

  /** A fresh node that finds no lease. */
  predicate CanAcquire(w: World, n: NodeId) {
    && n in w.nodes && w.nodes[n] == Node(w.nodes[n].config, 0.0, None, Idle) && w.nodes[n].config.Valid()
    && w.redis.lease == None && w.now >= 0.0 && w.redis.fence < MAX_TOKEN
    && w.redis.counter + w.nodes[n].config.segmentSize <= MAX_EXACT
  }

  function FirstRequest(w: World, n: NodeId): Request
    requires n in w.nodes
  {
    Request(w.nextId, n, -1, w.nodes[n].config.ttl, w.nodes[n].config.segmentSize)
  }

  /** The world once the node's script has run, its reply still on the way. */
  function Leased(w: World, n: NodeId): World
    requires CanAcquire(w, n)
  {
    var c, k, token := w.nodes[n].config, w.redis.counter, w.redis.fence + 1;
    World(w.now,
          Redis(Some(LeaseKey(LeaseValue(n, token), w.now + c.ttl as real)), token, k + c.segmentSize),
          w.nodes[n := Node(c, 0.0, None, Replied(w.now, Granted(token, k + 1, k + c.segmentSize), w.now))],
          w.inflight - {FirstRequest(w, n)}, w.nextId + 1, w.issued, w.owners + [n])
  }

  /** The world once the node has acquired and issued its first number, all at one moment. */
  function Acquired(w: World, n: NodeId): World
    requires CanAcquire(w, n)
  {
    var c, k, token := w.nodes[n].config, w.redis.counter, w.redis.fence + 1;
    var cs := ConvState(SequenceRange(k + 2, k + c.segmentSize), token, ValidUntil(c, w.now.Floor));
    Leased(w, n).(nodes := w.nodes[n := Node(c, 0.0, Some(Entry(cs, w.now, w.now)), Idle)], issued := w.issued + [k + 1])
  }

  lemma LeaseSteps(w: World, n: NodeId)
    requires CanAcquire(w, n)
    ensures Enabled(w, Send(n, w.now)) && Enabled(DoSend(w, n, w.now), Execute(FirstRequest(w, n)))
    ensures DoExecute(DoSend(w, n, w.now), FirstRequest(w, n)) == Leased(w, n)
  {
    var q, c := FirstRequest(w, n), w.nodes[n].config;
    var w1 := DoSend(w, n, w.now);
    assert w1.nodes == w.nodes[n := Node(c, 0.0, None, Waiting(w.nextId, w.now))];
    RefillOnNone(w.redis, w.now, q);
    var w2 := DoExecute(w1, q);
    assert w2.nodes == Leased(w, n).nodes;
    assert w2.inflight == w.inflight - {q};
  }

  lemma DeliverStep(w: World, n: NodeId)
    requires CanAcquire(w, n)
    ensures Enabled(Leased(w, n), Deliver(n)) && DoDeliver(Leased(w, n), n) == Acquired(w, n)
  {
    assert DoDeliver(Leased(w, n), n).nodes == Acquired(w, n).nodes;
  }

  lemma LeaseRuns(w: World, steps: seq<Step>, n: NodeId, slack: Slack) returns (longer: seq<Step>)
    requires ValidRun(w, steps) && TimelyRun(w, steps, slack)
    requires CanAcquire(After(w, steps), n)
    ensures ValidRun(w, longer) && TimelyRun(w, longer, slack)
    ensures After(w, longer) == Leased(After(w, steps), n)
  {
    var v := After(w, steps);
    LeaseSteps(v, n);
    Extend(w, steps, Send(n, v.now), slack);
    longer := steps + [Send(n, v.now)];
    Extend(w, longer, Execute(FirstRequest(v, n)), slack);
    longer := longer + [Execute(FirstRequest(v, n))];
  }

  lemma AcquireRuns(w: World, steps: seq<Step>, n: NodeId, slack: Slack) returns (longer: seq<Step>)
    requires ValidRun(w, steps) && TimelyRun(w, steps, slack) && slack(n) >= 0.0
    requires CanAcquire(After(w, steps), n)
    ensures ValidRun(w, longer) && TimelyRun(w, longer, slack)
    ensures After(w, longer) == Acquired(After(w, steps), n)
  {
    longer := LeaseRuns(w, steps, n, slack);
    DeliverStep(After(w, steps), n);
    Extend(w, longer, Deliver(n), slack);
    longer := longer + [Deliver(n)];
  }

  /** Another node whose script takes the lease of `n` for its own, but cannot read its token. */
  predicate CanTouch(w: World, n: NodeId, m: NodeId) {
    && m in w.nodes && w.nodes[m] == Node(w.nodes[m].config, 0.0, None, Idle) && w.nodes[m].config.Valid()
    && w.redis.lease.Some? && w.redis.lease.value.value == LeaseValue(n, w.redis.fence)
    && m != n && m == OwnerOf(n) && w.now >= 0.0 && w.redis.fence < MAX_TOKEN
    && w.redis.counter + w.nodes[m].config.segmentSize <= MAX_EXACT
  }

  /** Its script moved the expiry and the counter; the truncated reply left it without an entry. */
  function Touched(w: World, m: NodeId): World
    requires m in w.nodes && w.redis.lease.Some?
  {
    var c := w.nodes[m].config;
    World(w.now,
          Redis(Some(w.redis.lease.value.(expireAt := w.now + c.ttl as real)), w.redis.fence, w.redis.counter + c.segmentSize),
          w.nodes, w.inflight - {FirstRequest(w, m)}, w.nextId + 1, w.issued, w.owners)
  }

  /** The lease string of an id with a ':' reads as the shorter owner, with no token. */
  lemma TouchRefills(w: World, n: NodeId, m: NodeId)
    requires CanTouch(w, n, m)
    ensures Readable(w.redis)
    ensures var (redis', reply) := Refill(w.redis, w.now, m, w.nodes[m].config.ttl, w.nodes[m].config.segmentSize, -1);
      redis' == Touched(w, m).redis && reply == [1]
  {
    assert ':' in n;
    LeaseValueParses(n, w.redis.fence);
    OwnerOfLease(n, w.redis.fence);
  }

  lemma TouchSteps(w: World, n: NodeId, m: NodeId)
    requires CanTouch(w, n, m)
    ensures Enabled(w, Send(m, w.now))
    ensures var w1 := DoSend(w, m, w.now);
      && Enabled(w1, Execute(FirstRequest(w, m)))
      && Enabled(DoExecute(w1, FirstRequest(w, m)), Deliver(m))
      && DoDeliver(DoExecute(w1, FirstRequest(w, m)), m) == Touched(w, m)
      && DoExecute(w1, FirstRequest(w, m)).nodes[m].phase.Replied?
      && DoExecute(w1, FirstRequest(w, m)).nodes[m].phase.readAt == DoExecute(w1, FirstRequest(w, m)).now
  {
    TouchRefills(w, n, m);
    var q, c := FirstRequest(w, m), w.nodes[m].config;
    var w1 := DoSend(w, m, w.now);
    assert w1.nodes == w.nodes[m := Node(c, 0.0, None, Waiting(w.nextId, w.now))];
    var w2 := DoExecute(w1, q);
    assert w2.nodes == w.nodes[m := Node(c, 0.0, None, Replied(w.now, NotOwner, w.now))];
    assert w2.inflight == w.inflight - {q};
    assert w2.nodes[m := Node(c, 0.0, None, Idle)] == w.nodes;
  }

  lemma TouchRuns(w: World, steps: seq<Step>, n: NodeId, m: NodeId, slack: Slack) returns (longer: seq<Step>)
    requires ValidRun(w, steps) && TimelyRun(w, steps, slack) && slack(m) >= 0.0
    requires CanTouch(After(w, steps), n, m)
    ensures ValidRun(w, longer) && TimelyRun(w, longer, slack)
    ensures After(w, longer) == Touched(After(w, steps), m)
  {
    var v := After(w, steps);
    TouchSteps(v, n, m);
    Extend(w, steps, Send(m, v.now), slack);
    longer := steps + [Send(m, v.now)];
    Extend(w, longer, Execute(FirstRequest(v, m)), slack);
    longer := longer + [Execute(FirstRequest(v, m))];
    Extend(w, longer, Deliver(m), slack);
    longer := longer + [Deliver(m)];
  }

  /** At time zero `n` is granted its first segment, delivered or not, and whoever reaches its lease sets the expiry. */
  lemma LeaseWritten(configs: map<NodeId, Config>, slack: Slack, n: NodeId, m: NodeId, delivered: bool)
    returns (steps: seq<Step>)
    requires RoomToInvert(configs, slack) && n in configs && m in configs && Reaches(m, n)
    ensures ValidRun(Init(configs), steps) && TimelyRun(Init(configs), steps, slack)
    ensures var w := After(Init(configs), steps);
      && w.now == 0.0 && w.issued == (if delivered then [1] else []) && w.redis.fence == 1
      && configs[n].segmentSize <= w.redis.counter <= configs[n].segmentSize + configs[m].segmentSize
      && w.redis.lease.Some? && w.redis.lease.value.expireAt == configs[m].ttl as real
      && w.nodes.Keys == configs.Keys
      && (forall b :: b in configs && b != n ==> w.nodes[b] == Node(configs[b], 0.0, None, Idle))
      && w.nodes[n] == (if delivered then Acquired(Init(configs), n) else Leased(Init(configs), n)).nodes[n]
  {
    var w := Init(configs);
    if delivered {
      steps := AcquireRuns(w, [], n, slack);
    } else {
      steps := LeaseRuns(w, [], n, slack);
    }
    if m != n {
      steps := TouchRuns(w, steps, n, m, slack);
    }
  }

  /** The lease runs out at its expiry and `b` takes it, issuing its first number. */
  lemma HandOver(w: World, steps: seq<Step>, ttl: nat, b: NodeId, slack: Slack) returns (longer: seq<Step>)
    requires ValidRun(w, steps) && TimelyRun(w, steps, slack) && slack(b) >= 0.0
    requires var v := After(w, steps);
      && v.now == 0.0 && v.redis.lease.Some? && v.redis.lease.value.expireAt == ttl as real
      && CanAcquire(v.(redis := v.redis.(lease := None)), b)
    ensures ValidRun(w, longer) && TimelyRun(w, longer, slack)
    ensures var v, v' := After(w, steps), After(w, longer);
      && v'.now == ttl as real && v'.issued == v.issued + [v.redis.counter + 1]
      && b in v'.nodes && v'.nodes == v.nodes[b := v'.nodes[b]]
  {
    var v, t := After(w, steps), ttl as real;
    Extend(w, steps, Tick(t), slack);
    longer := steps + [Tick(t)];
    Extend(w, longer, Expire, slack);
    longer := longer + [Expire];
    assert After(w, longer) == v.(now := t, redis := v.redis.(lease := None));
    longer := AcquireRuns(w, longer, b, slack);
  }

  /** Numbers far enough from the limits for a hand-over to run. */
  ghost predicate RoomToInvert(configs: map<NodeId, Config>, slack: Slack) {
    forall n :: n in configs ==>
      configs[n].Valid() && 3 * configs[n].segmentSize <= MAX_EXACT &&
      configs[n].ttl < U64_MAX && slack(n) >= 0.0
  }

  /** The latest issue at `now` that still passes the local check, a delay after its clock read. */
  function LateRead(now: real, delay: real): real {
    if delay <= now then now - delay else 0.0
  }

  lemma LateFastEnabled(w: World, n: NodeId, c: Config, now: real, delay: real)
    requires c.Valid() && c.ttl < U64_MAX && 2 <= c.segmentSize <= MAX_EXACT && n in w.nodes
    requires w.nodes[n].config == c && w.nodes[n].base == 0.0 && w.nodes[n].phase == Idle && w.nodes[n].entry.Some?
    requires w.nodes[n].entry.value.cs == ConvState(SequenceRange(2, c.segmentSize), 1, c.ttl - c.margin)
    requires w.now == now >= 0.0 && delay >= 0.0 && Tail(c, delay) > now
    ensures Enabled(w, Fast(n, LateRead(now, delay))) && now <= LateRead(now, delay) + delay
    ensures Apply(w, Fast(n, LateRead(now, delay))).issued == w.issued + [2]
  {
    var t := LateRead(now, delay);
    assert t < (c.ttl - c.margin) as real;
    assert t.Floor < c.ttl - c.margin;
  }

  /** A segment of several numbers: the old owner issues its second number after its successor's first. */
  lemma LateFastInverts(configs: map<NodeId, Config>, slack: Slack, n: NodeId, m: NodeId, b: NodeId)
    requires RoomToInvert(configs, slack) && n in configs && m in configs && b in configs && b != n
    requires Reaches(m, n) && configs[n].segmentSize > 1 && !Outlasts(configs, slack, m, n)
    ensures !OrderSafe(configs, slack)
  {
    var w, c := Init(configs), configs[n];
    var steps := LeaseWritten(configs, slack, n, m, true);
    var k := After(w, steps).redis.counter;
    steps := HandOver(w, steps, configs[m].ttl, b, slack);
    var t := LateRead(configs[m].ttl as real, slack(n));
    LateFastEnabled(After(w, steps), n, c, configs[m].ttl as real, slack(n));
    Extend(w, steps, Fast(n, t), slack);
    steps := steps + [Fast(n, t)];
    Inverted(After(w, steps).issued, [1], k + 1, 2);
  }

  lemma LateDeliverEnabled(w: World, n: NodeId, token: nat, end: nat)
    requires n in w.nodes && w.nodes[n].config.Valid() && w.nodes[n].base == 0.0
    requires 1 <= end <= MAX_EXACT && token <= MAX_TOKEN && w.nodes[n].phase == Replied(0.0, Granted(token, 1, end), 0.0)
    ensures Enabled(w, Deliver(n)) && Apply(w, Deliver(n)).issued == w.issued + [1]
  {
  }

  /** A segment of one number: the old owner's reply is delivered after its successor has issued. */
  lemma LateDeliverInverts(configs: map<NodeId, Config>, slack: Slack, n: NodeId, m: NodeId, b: NodeId)
    requires RoomToInvert(configs, slack) && n in configs && m in configs && b in configs && b != n
    requires Reaches(m, n) && slack(n) >= configs[m].ttl as real
    ensures !OrderSafe(configs, slack)
  {
    var w := Init(configs);
    var steps := LeaseWritten(configs, slack, n, m, false);
    var k := After(w, steps).redis.counter;
    steps := HandOver(w, steps, configs[m].ttl, b, slack);
    LateDeliverEnabled(After(w, steps), n, 1, configs[n].segmentSize);
    Extend(w, steps, Deliver(n), slack);
    steps := steps + [Deliver(n)];
    Inverted(After(w, steps).issued, [], k + 1, 1);
  }

  lemma Inverted(issued: seq<int>, before: seq<int>, high: int, low: int)
    requires issued == before + [high] + [low] && low < high
    ensures !Increasing(issued)
  {
    assert issued[|before|] == high && issued[|before| + 1] == low;
  }

  /** A node whose segment can outlast its lease can issue below its successor's number. */
  lemma LateIssueInverts(configs: map<NodeId, Config>, slack: Slack, n: NodeId, m: NodeId, b: NodeId)
    requires RoomToInvert(configs, slack) && n in configs && m in configs && b in configs && b != n
    requires Reaches(m, n) && !Outlasts(configs, slack, m, n)
    ensures !OrderSafe(configs, slack)
  {
    if configs[n].segmentSize == 1 {
      LateDeliverInverts(configs, slack, n, m, b);
    } else {
      LateFastInverts(configs, slack, n, m, b);
    }
  }

  // One node alone.

  ghost predicate AllBelow(numbers: seq<int>, k: int) {
    forall j :: j in numbers ==> j < k
  }

  /** Whatever the node still holds lies above everything issued. */
  ghost predicate NodeAhead(issued: seq<int>, node: Node) {
    && (node.entry.Some? && node.entry.value.cs.segment.next <= node.entry.value.cs.segment.end ==>
          AllBelow(issued, node.entry.value.cs.segment.next))
    && (node.phase.Replied? && node.phase.outcome.Granted? && node.phase.outcome.start <= node.phase.outcome.end ==>
          AllBelow(issued, node.phase.outcome.start))
  }

  ghost predicate Alone(w: World) {
    && Increasing(w.issued)
    && (forall n, m :: n in w.nodes && m in w.nodes ==> n == m)
    && (forall n :: n in w.nodes ==> NodeAhead(w.issued, w.nodes[n]))
  }

  lemma AloneFast(w: World, n: NodeId, t: real)
    requires Inv(w) && Alone(w) && Enabled(w, Fast(n, t))
    ensures Alone(Apply(w, Fast(n, t)))
  {
    var w', segment := Apply(w, Fast(n, t)), w.nodes[n].entry.value.cs.segment;
    assert NodeAhead(w.issued, w.nodes[n]);
    assert Held(w, n, segment.next) && Held(w, n, segment.end);
    assert w'.issued == w.issued + [segment.next];
    IncreasingAppend(w.issued, w'.issued);
    assert w'.nodes[n].entry.value.cs.segment == SequenceRange(segment.next + 1, segment.end) && w'.nodes[n].phase == Idle;
  }

  lemma AloneDeliver(w: World, n: NodeId)
    requires Inv(w) && Alone(w) && Enabled(w, Deliver(n))
    ensures Alone(Apply(w, Deliver(n)))
  {
    var w', o := Apply(w, Deliver(n)), w.nodes[n].phase.outcome;
    assert NodeAhead(w.issued, w.nodes[n]);
    if o.Granted? && o.start <= o.end {
      assert Held(w, n, o.start) && Held(w, n, o.end);
      assert w'.issued == w.issued + [o.start];
      IncreasingAppend(w.issued, w'.issued);
      assert w'.nodes[n].entry.value.cs.segment == SequenceRange(o.start + 1, o.end) && w'.nodes[n].phase == Idle;
    } else {
      assert w'.issued == w.issued && w'.nodes[n].entry == None;
    }
  }

  lemma AloneExecute(w: World, q: Request)
    requires Inv(w) && Alone(w) && Enabled(w, Execute(q))
    ensures Alone(Apply(w, Execute(q)))
  {
    ExecuteEffect(w, q);
    assert NodeAhead(w.issued, w.nodes[q.node]);
    assert AllBelow(w.issued, w.redis.counter + 1);
  }

  lemma AloneQuiet(w: World, s: Step)
    requires Alone(w) && Enabled(w, s)
    requires s.Tick? || s.Expire? || s.Send? || s.Vanish? || s.Fail? || s.Restart?
    ensures Alone(Apply(w, s))
  {
    var w' := Apply(w, s);
    forall n | n in w'.nodes ensures NodeAhead(w'.issued, w'.nodes[n]) {
      assert NodeAhead(w.issued, w.nodes[n]);
    }
  }

  lemma {:induction false} AloneRun(w: World, steps: seq<Step>, slack: Slack)
    requires Inv(w) && Alone(w) && ValidRun(w, steps) && TimelyRun(w, steps, slack)
    ensures Increasing(After(w, steps).issued)
    decreases |steps|
  {
    if steps != [] {
      var s := steps[0];
      InvStep(w, s);
      AloneStep(w, s, slack);
      AloneRun(Apply(w, s), steps[1..], slack);
    }
  }

  lemma AloneStep(w: World, s: Step, slack: Slack)
    requires Inv(w) && Alone(w) && Enabled(w, s) && Timely(w, s, slack)
    ensures Alone(Apply(w, s))
  {
    match s
    case Fast(n, t) => AloneFast(w, n, t);
    case Deliver(n) => AloneDeliver(w, n);
    case Execute(q) => AloneExecute(w, q);
    case _ => AloneQuiet(w, s);
  }

  /** A single node's numbers rise whatever its delays: it issues under its own lock and replaces its entry. */
  lemma OneNodeOrdered(configs: map<NodeId, Config>, slack: Slack)
    requires |configs| <= 1
    ensures OrderSafe(configs, slack)
  {
    var w := Init(configs);
    InvInit(configs);
    forall n, m | n in w.nodes && m in w.nodes ensures n == m {
      if n != m {
        assert {n, m} <= configs.Keys;
        AtLeastTwo(configs.Keys, n, m);
      }
    }
    forall steps | ValidRun(w, steps) && TimelyRun(w, steps, slack) ensures Increasing(After(w, steps).issued) {
      AloneRun(w, steps, slack);
    }
  }

  lemma AtLeastTwo(ids: set<NodeId>, n: NodeId, m: NodeId)
    requires n in ids && m in ids && n != m
    ensures |ids| >= 2
  {
    assert m in ids - {n} && |ids - {n}| >= 1;
  }

  /**
   The exact condition, for any number of nodes: the order is kept in every timely run iff there is
   at most one node, or no node's segment, delay included, outlasts the lease time of any node that
   can write its lease's expiry.
   */
  lemma OrderIff(configs: map<NodeId, Config>, slack: Slack)
    requires RoomToInvert(configs, slack)
    ensures OrderSafe(configs, slack) <==> |configs| <= 1 || AllOutlast(configs, slack)
  {
    if |configs| <= 1 {
      OneNodeOrdered(configs, slack);
    } else if n, m :| n in configs && m in configs && Reaches(m, n) && !Outlasts(configs, slack, m, n) {
      assert configs.Keys != {n};
      var b :| b in configs && b != n;
      LateIssueInverts(configs, slack, n, m, b);
    } else {
      OrderAcrossHandover(configs, slack);
    }
  }

  /**
   For ids without ':' the condition is that no delay exceeds the node's own margin, or, where
   segments are single numbers, that no delay reaches the node's own lease time.
   */
  lemma OutlastIsMargin(configs: map<NodeId, Config>, slack: Slack)
    requires AllValid(configs) && forall n :: n in configs ==> ':' !in n
    ensures AllOutlast(configs, slack) <==>
      forall n :: n in configs ==>
        if configs[n].segmentSize == 1 then slack(n) < configs[n].ttl as real else slack(n) <= configs[n].margin as real
  {
    forall n, m | n in configs && m in configs ensures Reaches(m, n) <==> m == n {
      assert OwnerOf(n) == n;
    }
    forall n | n in configs
      ensures Outlasts(configs, slack, n, n) <==>
        if configs[n].segmentSize == 1 then slack(n) < configs[n].ttl as real else slack(n) <= configs[n].margin as real
    {
    }
  }
}
