/** Plain, floor-guarded and batch allocation on the shared counter, and its recovery from a flush. */
module SequenceAllocator {
  import opened SequenceRanges

  /** Spacing of the doubles around n. */
  function Ulp(n: nat): (u: nat)
    ensures u > 0
  {
    if n < MAX_EXACT then 1 else 2 * Ulp(n / 2)
  }

  /** The double nearest to n, ties to the even significand. */
  function ToDouble(n: nat): nat {
    var u := Ulp(n);
    var q, r := n / u, n % u;
    if 2 * r < u || (2 * r == u && q % 2 == 0) then q * u else (q + 1) * u
  }

  function Max(a: nat, b: nat): nat {
    if a < b then b else a
  }

  /** FLOOR_SEQ_LUA in Lua's arithmetic: the new counter, which is also the reply. */
  function FloorScript(current: nat, floor: nat): nat {
    var cur, low := ToDouble(current), ToDouble(floor);
    ToDouble((if cur < low then low else cur) + 1)
  }

  /** `seq_after_floor`, the stated meaning of the script. */
  function SeqAfterFloor(current: nat, floor: nat): nat {
    SaturatingAdd(Max(current, floor), 1)
  }

  lemma ToDoubleExact(n: nat)
    requires n <= MAX_EXACT
    ensures ToDouble(n) == n
  {
    if n == MAX_EXACT {
      assert Ulp(n) == 2 * Ulp(n / 2) == 2;
    }
  }

  ghost predicate ScriptMeansFloor(bound: nat) {
    forall cur: nat, floor: nat :: Max(cur, floor) < bound ==> FloorScript(cur, floor) == Max(cur, floor) + 1
  }

  /** At 2^53 the script hands out the counter's own value again. */
  lemma ScriptRepeatsAtLimit()
    ensures FloorScript(MAX_EXACT, 1) == MAX_EXACT
  {
    ToDoubleExact(MAX_EXACT);
    ToDoubleExact(1);
    var n := MAX_EXACT + 1;
    assert Ulp(n) == 2 * Ulp(n / 2) == 2;
    assert n / 2 == MAX_EXACT / 2 && n % 2 == 1 && (MAX_EXACT / 2) % 2 == 0;
  }

  /** The script is `max + 1` for all values below a bound iff the bound is at most 2^53. */
  lemma ScriptExactIff(bound: nat)
    ensures ScriptMeansFloor(bound) <==> bound <= 9_007_199_254_740_992
  {
    if bound <= MAX_EXACT {
      forall cur: nat, floor: nat | Max(cur, floor) < bound
        ensures FloorScript(cur, floor) == Max(cur, floor) + 1
      {
        ToDoubleExact(cur);
        ToDoubleExact(floor);
        ToDoubleExact(Max(cur, floor) + 1);
      }
    } else {
      ScriptRepeatsAtLimit();
      assert Max(MAX_EXACT, 1) == MAX_EXACT;
    }
  }

  /** The floor-guarded allocation: INCR when there is no floor, the script otherwise. */
  function NextSeq(current: nat, floor: nat): nat {
    if floor == 0 then current + 1 else FloorScript(current, floor)
  }

  /** Both branches are the reference meaning wherever the script is exact. */
  lemma NextSeqIsSeqAfterFloor(current: nat, floor: nat)
    requires Max(current, floor) < MAX_EXACT
    ensures NextSeq(current, floor) == SeqAfterFloor(current, floor) == Max(current, floor) + 1
  {
    ScriptExactIff(MAX_EXACT);
  }

  /** The `size` numbers right above the counter, in order. */
  function BatchSeqs(current: nat, size: nat): (numbers: seq<nat>)
    ensures |numbers| == size && forall i :: 0 <= i < size ==> numbers[i] == current + 1 + i
  {
    seq(size, (i: nat) => current + 1 + i)
  }

  function RedisKey(tenant: string, conversation: string): string {
    "seq:" + tenant + ":" + conversation
  }

  /** A key shared by two tenants reads as either. */
  lemma SharedKey(t: string, u: string, c: string, d: string)
    requires t + ":" + c == u + ":" + d && |t| <= |u|
    ensures t == u || t + ":" <= u
  {
    var k := t + ":" + c;
    assert t == k[..|t|] && u == k[..|u|] && k[|t|] == ':';
    if |t| < |u| {
      assert u[..|t|] == t && u[|t|] == ':';
      assert t + ":" == u[..|t| + 1];
    }
  }

  lemma ContinuedTenant(t: string, u: string)
    requires t + ":" <= u
    ensures exists c :: RedisKey(t, c) == RedisKey(u, "")
  {
    var c := u[|t| + 1..] + ":";
    assert u == t + ":" + u[|t| + 1..];
    assert RedisKey(t, c) == RedisKey(u, "");
  }

  lemma KeyTail(t: string, c: string)
    ensures |RedisKey(t, c)| >= 4 && RedisKey(t, c)[..4] == "seq:" && RedisKey(t, c)[4..] == t + ":" + c
  {
  }

  /** Two tenants can share a counter iff one is the other, or continues it after a ':'. */
  lemma TenantIsolation(t: string, u: string)
    ensures (exists c, d :: RedisKey(t, c) == RedisKey(u, d)) <==> t == u || t + ":" <= u || u + ":" <= t
  {
    if c, d :| RedisKey(t, c) == RedisKey(u, d) {
      KeyTail(t, c);
      KeyTail(u, d);
      if |t| <= |u| {
        SharedKey(t, u, c, d);
      } else {
        SharedKey(u, t, d, c);
      }
    }
    if t == u {
      assert RedisKey(t, "") == RedisKey(u, "");
    } else if t + ":" <= u {
      ContinuedTenant(t, u);
    } else if u + ":" <= t {
      ContinuedTenant(u, t);
    }
  }

  class Allocator {
    const batchSize: nat
    /** Redis: a missing key counts from zero. */
    var counters: map<string, nat>

    constructor (batchSize: nat)
      ensures this.batchSize == (if batchSize < 1 then 1 else batchSize) && counters == map[]
    {
      this.batchSize := if batchSize < 1 then 1 else batchSize;
      counters := map[];
    }

    function Counter(key: string): nat
      reads this
    {
      if key in counters then counters[key] else 0
    }

    method AllocateSeq(conversation: string, tenant: string) returns (number: nat)
      modifies this`counters
      ensures number == old(Counter(RedisKey(tenant, conversation))) + 1
      ensures counters == old(counters)[RedisKey(tenant, conversation) := number]
    {
      var key := RedisKey(tenant, conversation);
      number := Counter(key) + 1;
      counters := counters[key := number];
    }

    /** Where Lua is exact: strictly above the counter and the floor, and the least such number. */
    method AllocateSeqWithFloor(conversation: string, tenant: string, floor: nat) returns (number: nat)
      modifies this`counters
      ensures number == NextSeq(old(Counter(RedisKey(tenant, conversation))), floor)
      ensures Max(old(Counter(RedisKey(tenant, conversation))), floor) < MAX_EXACT ==>
        number == Max(old(Counter(RedisKey(tenant, conversation))), floor) + 1
      ensures counters == old(counters)[RedisKey(tenant, conversation) := number]
    {
      if floor == 0 {
        number := AllocateSeq(conversation, tenant);
        return;
      }
      var key := RedisKey(tenant, conversation);
      if Max(Counter(key), floor) < MAX_EXACT {
        NextSeqIsSeqAfterFloor(Counter(key), floor);
      }
      number := FloorScript(Counter(key), floor);
      counters := counters[key := number];
    }

    /** The whole batch, in order: the numbers right above the old counter. */
    method AllocateBatch(conversation: string, tenant: string) returns (numbers: seq<nat>)
      requires batchSize >= 1
      modifies this`counters
      ensures numbers == BatchSeqs(old(Counter(RedisKey(tenant, conversation))), batchSize)
      ensures counters == old(counters)[RedisKey(tenant, conversation) := numbers[batchSize - 1]]
    {
      var key := RedisKey(tenant, conversation);
      var end := Counter(key) + batchSize;
      counters := counters[key := end];
      var start := (if end < batchSize then 0 else end - batchSize) + 1;
      numbers := [];
      var next := start;
      while next <= end
        invariant start <= next <= end + 1 && |numbers| == next - start
        invariant forall i :: 0 <= i < |numbers| ==> numbers[i] == start + i
      {
        numbers := numbers + [next];
        next := next + 1;
      }
    }
  }

  // Self-healing after a flush.

  datatype CounterStep = Alloc(floor: nat) | Flush

  /** The counter after each step, and the numbers issued so far. */
  function IssuedAfter(steps: seq<CounterStep>, current: nat, issued: seq<nat>): seq<nat> {
    if steps == [] then issued
    else match steps[0]
      case Flush => IssuedAfter(steps[1..], 0, issued)
      case Alloc(floor) =>
        var n := NextSeq(current, floor);
        IssuedAfter(steps[1..], n, issued + [n])
  }

  /** Every value the script meets is exact. */
  predicate StaysExact(steps: seq<CounterStep>, current: nat) {
    steps == [] ||
    match steps[0]
    case Flush => StaysExact(steps[1..], 0)
    case Alloc(floor) => Max(current, floor) < MAX_EXACT && StaysExact(steps[1..], NextSeq(current, floor))
  }

  /** The first allocation after each flush brings a floor at least every number issued before it. */
  predicate FloorsCover(steps: seq<CounterStep>, current: nat, issued: seq<nat>, flushed: bool) {
    steps == [] ||
    match steps[0]
    case Flush => FloorsCover(steps[1..], 0, issued, true)
    case Alloc(floor) =>
      var n := NextSeq(current, floor);
      && (flushed ==> forall k :: k in issued ==> k <= floor)
      && FloorsCover(steps[1..], n, issued + [n], false)
  }

  lemma {:induction false} IssuedOnlyGrows(steps: seq<CounterStep>, current: nat, issued: seq<nat>)
    ensures issued <= IssuedAfter(steps, current, issued)
  {
    if steps != [] {
      match steps[0]
      case Flush => IssuedOnlyGrows(steps[1..], 0, issued);
      case Alloc(floor) =>
        var n := NextSeq(current, floor);
        IssuedOnlyGrows(steps[1..], n, issued + [n]);
    }
  }

  /**
   Over any run of allocations and flushes the issued numbers increase iff the first floor after
   each flush covers what was issued; later floors may be as stale as they like.
   */
  lemma {:induction false} SelfHealing(steps: seq<CounterStep>, current: nat, issued: seq<nat>, flushed: bool)
    requires Increasing(issued) && StaysExact(steps, current)
    requires if flushed then current == 0 else forall k :: k in issued ==> k <= current
    ensures Increasing(IssuedAfter(steps, current, issued)) <==> FloorsCover(steps, current, issued, flushed)
    decreases |steps|
  {
    if steps != [] {
      match steps[0]
      case Flush => SelfHealing(steps[1..], 0, issued, true);
      case Alloc(floor) =>
        var n := NextSeq(current, floor);
        NextSeqIsSeqAfterFloor(current, floor);
        if flushed && exists k :: k in issued && k > floor {
          IssuedOnlyGrows(steps[1..], n, issued + [n]);
          var k :| k in issued && k > floor;
          var i :| 0 <= i < |issued| && issued[i] == k;
          var all := IssuedAfter(steps, current, issued);
          assert all[i] == (issued + [n])[i] && all[|issued|] == (issued + [n])[|issued|];
        } else {
          assert forall i :: 0 <= i < |issued| ==> issued[i] in issued;
          SelfHealing(steps[1..], n, issued + [n], false);
        }
    }
  }
}
