/** Recovery of a node whose script took effect but whose reply was lost. */
module LeaseRecovery {
  import opened Options
  import opened LeaseScript
  import opened LeasedCore
  import opened LeaseSystem
  import opened LeaseSafety

  ghost predicate RequestsFresh(w: World) {
    && (forall n :: n in w.nodes ==> w.nodes[n].config.Valid())
    && (forall q :: q in w.inflight ==> q.id < w.nextId && q.seg >= 1)
  }

  lemma RequestsFreshStep(w: World, s: Step)
    requires RequestsFresh(w) && Enabled(w, s)
    ensures RequestsFresh(Apply(w, s))
  {
  }

  lemma {:induction false} RequestsFreshRun(w: World, steps: seq<Step>)
    requires RequestsFresh(w) && ValidRun(w, steps)
    ensures RequestsFresh(After(w, steps))
    decreases |steps|
  {
    if steps != [] {
      RequestsFreshStep(w, steps[0]);
      RequestsFreshRun(Apply(w, steps[0]), steps[1..]);
    }
  }

  /** The lease is absent or was written by `n`. */
  ghost predicate Unclaimed(w: World, n: NodeId) {
    w.redis.lease.Some? ==> |w.owners| > 0 && w.owners[|w.owners| - 1] == n
  }

  /** No other node takes the lease along the run; their scripts may run and be refused. */
  ghost predicate StaysUnclaimed(w: World, n: NodeId, steps: seq<Step>)
    requires ValidRun(w, steps)
    decreases |steps|
  {
    Unclaimed(w, n) && (steps == [] || StaysUnclaimed(Apply(w, steps[0]), n, steps[1..]))
  }

  /** The stale token is gone, so the next reply that arrives can only be a grant. */
  ghost predicate Recovering(w: World, n: NodeId) {
    && Inv(w) && RequestsFresh(w) && Unclaimed(w, n)
    && n in w.nodes && ':' !in n && w.nodes[n].entry == None
    && (w.nodes[n].phase.Waiting? ==>
          forall q :: q in w.inflight && q.node == n && q.id == w.nodes[n].phase.id ==> q.expected < 0)
    && (w.nodes[n].phase.Replied? ==>
          w.nodes[n].phase.outcome.Granted? && w.nodes[n].phase.outcome.start <= w.nodes[n].phase.outcome.end)
  }

  /** A refusal drops the stale entry. */
  lemma RefusalClears(w: World, n: NodeId)
    requires Inv(w) && RequestsFresh(w) && Unclaimed(w, n) && ':' !in n
    requires Enabled(w, Deliver(n)) && w.nodes[n].phase.outcome.NotOwner?
    ensures Recovering(Apply(w, Deliver(n)), n)
    ensures Apply(w, Deliver(n)).issued == w.issued
  {
    InvStep(w, Deliver(n));
    RequestsFreshStep(w, Deliver(n));
  }

  /** A script sent without a token is granted when nobody else claims the lease. */
  lemma FreshIsGranted(w: World, n: NodeId, q: Request)
    requires Inv(w) && Unclaimed(w, n) && ':' !in n && Enabled(w, Execute(q)) && q.node == n && q.expected < 0
    ensures Decode(Refill(w.redis, w.now, n, q.ttl, q.seg, q.expected).1) ==
            Granted(Apply(w, Execute(q)).redis.fence, w.redis.counter + 1, w.redis.counter + q.seg)
    ensures Unclaimed(Apply(w, Execute(q)), n)
  {
    if w.redis.lease.Some? {
      RunOnPlainLease(w.redis, w.now, n, q.ttl, q.seg, q.expected, n);
    } else {
      RefillOnNone(w.redis, w.now, q);
    }
  }

  lemma RecoveringExecute(w: World, n: NodeId, q: Request)
    requires Recovering(w, n) && Enabled(w, Execute(q)) && q.node == n
    ensures Recovering(Apply(w, Execute(q)), n)
  {
    InvExecute(w, q);
    RequestsFreshStep(w, Execute(q));
    if q.expected < 0 {
      FreshIsGranted(w, n, q);
    }
  }

  /** Another node's script on the lease of `n` is refused and changes no key. */
  lemma OtherIsRefused(w: World, n: NodeId, q: Request)
    requires Inv(w) && Unclaimed(w, n) && ':' !in n && w.redis.lease.Some? && Readable(w.redis) && q.node != n
    ensures Refill(w.redis, w.now, q.node, q.ttl, q.seg, q.expected) == (w.redis, [0, 0, 0, 0])
  {
    LeaseValueParses(n, w.redis.fence);
  }

  /** Without a lease another node's script would take it. */
  lemma OtherFindsLease(w: World, n: NodeId, q: Request)
    requires Inv(w) && Enabled(w, Execute(q)) && q.node != n && Unclaimed(Apply(w, Execute(q)), n)
    ensures w.redis.lease.Some?
  {
    ExecuteEffect(w, q);
  }

  lemma RecoveringOther(w: World, n: NodeId, q: Request)
    requires Recovering(w, n) && Enabled(w, Execute(q)) && q.node != n && Unclaimed(Apply(w, Execute(q)), n)
    ensures Recovering(Apply(w, Execute(q)), n)
  {
    OtherFindsLease(w, n, q);
    OtherIsRefused(w, n, q);
    InvExecute(w, q);
    RequestsFreshStep(w, Execute(q));
  }

  lemma RecoveringStep(w: World, n: NodeId, s: Step)
    requires Recovering(w, n) && Enabled(w, s) && Unclaimed(Apply(w, s), n) && s != Deliver(n)
    ensures Recovering(Apply(w, s), n)
  {
    if s.Execute? {
      if s.req.node == n {
        RecoveringExecute(w, n, s.req);
      } else {
        RecoveringOther(w, n, s.req);
      }
    } else {
      InvStep(w, s);
      RequestsFreshStep(w, s);
    }
  }

  lemma {:induction false} RecoveringRun(w: World, n: NodeId, steps: seq<Step>)
    requires Recovering(w, n) && ValidRun(w, steps) && StaysUnclaimed(w, n, steps)
    requires forall i :: 0 <= i < |steps| ==> steps[i] != Deliver(n)
    ensures Recovering(After(w, steps), n)
    decreases |steps|
  {
    if steps != [] {
      RecoveringStep(w, n, steps[0]);
      RecoveringRun(Apply(w, steps[0]), n, steps[1..]);
    }
  }

  /** The reply that arrives is a grant: its first number is issued and the rest kept. */
  lemma RecoveringDelivers(w: World, n: NodeId)
    requires Recovering(w, n) && Enabled(w, Deliver(n))
    ensures exists k :: Apply(w, Deliver(n)).issued == w.issued + [k] && Apply(w, Deliver(n)).nodes[n].entry.Some?
  {
    assert Apply(w, Deliver(n)).issued == w.issued + [w.nodes[n].phase.outcome.start];
  }

  /** From the start of a run to the state a refusal leaves. */
  lemma RefusedRecovers(configs: map<NodeId, Config>, before: seq<Step>, n: NodeId)
    requires (forall m :: m in configs ==> configs[m].Valid()) && ValidRun(Init(configs), before) && ':' !in n
    requires var w := After(Init(configs), before);
      Enabled(w, Deliver(n)) && w.nodes[n].phase.outcome.NotOwner? && Unclaimed(w, n)
    ensures Recovering(Apply(After(Init(configs), before), Deliver(n)), n)
  {
    InvInit(configs);
    InvRun(Init(configs), before);
    RequestsFreshRun(Init(configs), before);
    RefusalClears(After(Init(configs), before), n);
  }

  /**
   After one refusal, as long as no other node takes the lease, the next reply that reaches the node
   grants it a number, whatever other nodes try and whatever expires, fails or gets lost in between:
   it is refused at most once.
   */
  lemma RefusedAtMostOnce(configs: map<NodeId, Config>, before: seq<Step>, n: NodeId, between: seq<Step>)
    requires forall m :: m in configs ==> configs[m].Valid()
    requires ValidRun(Init(configs), before)
    requires ':' !in n
    requires Enabled(After(Init(configs), before), Deliver(n))
    requires After(Init(configs), before).nodes[n].phase.outcome.NotOwner?
    requires ValidRun(Apply(After(Init(configs), before), Deliver(n)), between)
    requires StaysUnclaimed(Apply(After(Init(configs), before), Deliver(n)), n, between)
    requires forall i :: 0 <= i < |between| ==> between[i] != Deliver(n)
    ensures var w := After(Apply(After(Init(configs), before), Deliver(n)), between);
      Enabled(w, Deliver(n)) ==>
        exists k :: Apply(w, Deliver(n)).issued == w.issued + [k] && Apply(w, Deliver(n)).nodes[n].entry.Some?
  {
    var w0 := After(Init(configs), before);
    RefusedRecovers(configs, before, n);
    var w1 := Apply(w0, Deliver(n));
    RecoveringRun(w1, n, between);
    var w := After(w1, between);
    if Enabled(w, Deliver(n)) {
      RecoveringDelivers(w, n);
    }
  }
}
