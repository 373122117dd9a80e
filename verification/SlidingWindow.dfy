/** The per-key sliding-window rate limiter of the hook plugin. */
module SlidingWindow {

  /** A call under the lock, with the clock value it read before taking it. */
  datatype Call = Call(key: string, now: int)

  datatype Limit = Limit(max: nat, window: nat)

  /** `Instant::duration_since`, which is zero for a later instant. */
  function Elapsed(now: int, t: int): nat {
    if now >= t then now - t else 0
  }

  /** `retain`: the times still inside the window. */
  function Pruned(times: seq<int>, now: int, window: nat): (kept: seq<int>) {
    if times == [] then []
    else
      var n := |times| - 1;
      Pruned(times[..n], now, window) + if Elapsed(now, times[n]) < window then [times[n]] else []
  }

  /** A key's list, and beside it the times of all its admitted calls, none forgotten. */
  datatype Book = Book(entry: seq<int>, admitted: seq<int>)

  function Admits(entry: seq<int>, now: int, limit: Limit): bool {
    |Pruned(entry, now, limit.window)| < limit.max
  }

  function Record(b: Book, now: int, limit: Limit): Book {
    var kept := Pruned(b.entry, now, limit.window);
    if |kept| < limit.max then Book(kept + [now], b.admitted + [now]) else Book(kept, b.admitted)
  }

  /** The key's book after a history of calls. */
  function BookOf(calls: seq<Call>, key: string, limit: Limit): Book {
    if calls == [] then Book([], [])
    else
      var n := |calls| - 1;
      var b := BookOf(calls[..n], key, limit);
      if calls[n].key == key then Record(b, calls[n].now, limit) else b
  }

  lemma BookSnoc(calls: seq<Call>, c: Call, key: string, limit: Limit)
    ensures BookOf(calls + [c], key, limit) ==
      if c.key == key then Record(BookOf(calls, key, limit), c.now, limit) else BookOf(calls, key, limit)
  {
    assert (calls + [c])[..|calls|] == calls;
  }

  /** `retain` in place. */
  method Retain(times: seq<int>, now: int, window: nat) returns (kept: seq<int>)
    ensures kept == Pruned(times, now, window)
  {
    kept := [];
    var i := 0;
    while i < |times|
      invariant 0 <= i <= |times| && kept == Pruned(times[..i], now, window)
    {
      assert times[..i + 1][..i] == times[..i];
      if Elapsed(now, times[i]) < window {
        kept := kept + [times[i]];
      }
      i := i + 1;
    }
    assert times[..i] == times;
  }

  class Limiter {
    const limit: Limit
    var hits: map<string, seq<int>>
    ghost var history: seq<Call>

    ghost predicate Valid()
      reads this
    {
      forall key :: Times(hits, key) == BookOf(history, key, limit).entry
    }

    static function Times(hits: map<string, seq<int>>, key: string): seq<int> {
      if key in hits then hits[key] else []
    }

    constructor (limit: Limit)
      ensures Valid() && history == [] && this.limit == limit
    {
      this.limit, hits, history := limit, map[], [];
    }

    /** `allow`: the call joins the history, and no other key's list changes. */
    method Allow(key: string, now: int) returns (ok: bool)
      requires Valid()
      modifies this
      ensures Valid() && history == old(history) + [Call(key, now)]
      ensures ok == Admits(BookOf(old(history), key, limit).entry, now, limit)
      ensures hits - {key} == old(hits) - {key}
    {
      ghost var before := hits;
      var entry := Retain(Times(hits, key), now, limit.window);
      ok := |entry| < limit.max;
      if ok {
        entry := entry + [now];
      }
      hits := hits[key := entry];
      ghost var c := Call(key, now);
      assert entry == Record(BookOf(history, key, limit), now, limit).entry;
      forall other ensures Times(hits, other) == BookOf(history + [c], other, limit).entry {
        BookSnoc(history, c, other, limit);
        assert Times(before, other) == BookOf(history, other, limit).entry;
      }
      history := history + [c];
    }
  }

  // Counting admitted calls.

  /** Clock values never step back by more than the slack in lock order. */
  ghost predicate StepsBackAtMost(calls: seq<Call>, slack: nat) {
    forall i, j :: 0 <= i < j < |calls| ==> calls[i].now <= calls[j].now + slack
  }

  ghost predicate NoneAfter(calls: seq<Call>, now: int) {
    forall i :: 0 <= i < |calls| ==> calls[i].now <= now
  }

  /** How many of the times lie in (lo, hi]. */
  function Count(times: seq<int>, lo: int, hi: int): nat {
    if times == [] then 0
    else
      var n := |times| - 1;
      Count(times[..n], lo, hi) + if lo < times[n] <= hi then 1 else 0
  }

  lemma CountSnoc(times: seq<int>, t: int, lo: int, hi: int)
    ensures Count(times + [t], lo, hi) == Count(times, lo, hi) + if lo < t <= hi then 1 else 0
  {
    assert (times + [t])[..|times|] == times;
  }

  lemma {:induction false} CountNone(times: seq<int>, lo: int, hi: int)
    requires hi <= lo || AllAtMost(times, lo)
    ensures Count(times, lo, hi) == 0
    decreases |times|
  {
    if times != [] {
      CountNone(times[..|times| - 1], lo, hi);
    }
  }

  lemma PrunedSnoc(times: seq<int>, t: int, now: int, window: nat)
    ensures Pruned(times + [t], now, window) == Pruned(times, now, window) + if Elapsed(now, t) < window then [t] else []
  {
    assert (times + [t])[..|times|] == times;
  }

  /** Pruning drops nothing from a window that starts no earlier than the pruned one. */
  lemma {:induction false} PrunedKeepsCount(times: seq<int>, now: int, window: nat, lo: int, hi: int)
    requires now - window <= lo && window > 0
    ensures Count(Pruned(times, now, window), lo, hi) == Count(times, lo, hi) <= |Pruned(times, now, window)|
    decreases |times|
  {
    if times != [] {
      var n := |times| - 1;
      var init, t := times[..n], times[n];
      assert times == init + [t];
      PrunedKeepsCount(init, now, window, lo, hi);
      PrunedSnoc(init, t, now, window);
      CountSnoc(init, t, lo, hi);
      if Elapsed(now, t) < window {
        CountSnoc(Pruned(init, now, window), t, lo, hi);
      } else {
        assert Pruned(times, now, window) == Pruned(init, now, window);
      }
    }
  }

  lemma RecordKeepsCount(b: Book, now: int, limit: Limit, lo: int, hi: int)
    requires now - limit.window <= lo && limit.window > 0 && Count(b.entry, lo, hi) == Count(b.admitted, lo, hi)
    ensures var b' := Record(b, now, limit); Count(b'.entry, lo, hi) == Count(b'.admitted, lo, hi)
  {
    PrunedKeepsCount(b.entry, now, limit.window, lo, hi);
    CountSnoc(Pruned(b.entry, now, limit.window), now, lo, hi);
    CountSnoc(b.admitted, now, lo, hi);
  }

  /** The list has forgotten no admitted call inside the last window. */
  lemma {:induction false} EntryKeepsCount(calls: seq<Call>, key: string, limit: Limit, lo: int, hi: int)
    requires NoneAfter(calls, lo + limit.window) && limit.window > 0
    ensures var b := BookOf(calls, key, limit); Count(b.entry, lo, hi) == Count(b.admitted, lo, hi)
    decreases |calls|
  {
    if calls != [] {
      var n := |calls| - 1;
      EntryKeepsCount(calls[..n], key, limit, lo, hi);
      if calls[n].key == key {
        RecordKeepsCount(BookOf(calls[..n], key, limit), calls[n].now, limit, lo, hi);
      }
    }
  }

  ghost predicate AllAtMost(times: seq<int>, now: int) {
    forall k :: 0 <= k < |times| ==> times[k] <= now
  }

  lemma {:induction false} PrunedIsCount(times: seq<int>, now: int, window: nat)
    requires AllAtMost(times, now)
    ensures |Pruned(times, now, window)| == Count(times, now - window, now)
    decreases |times|
  {
    if times != [] {
      PrunedIsCount(times[..|times| - 1], now, window);
    }
  }

  lemma {:induction false} PrunedAtMost(times: seq<int>, now: int, window: nat, top: int)
    requires AllAtMost(times, top)
    ensures AllAtMost(Pruned(times, now, window), top)
    decreases |times|
  {
    if times != [] {
      PrunedAtMost(times[..|times| - 1], now, window, top);
    }
  }

  lemma {:induction false} EntryAtMost(calls: seq<Call>, key: string, limit: Limit, now: int)
    requires NoneAfter(calls, now)
    ensures AllAtMost(BookOf(calls, key, limit).entry, now)
    decreases |calls|
  {
    if calls != [] {
      var n := |calls| - 1;
      EntryAtMost(calls[..n], key, limit, now);
      PrunedAtMost(BookOf(calls[..n], key, limit).entry, calls[n].now, limit.window, now);
    }
  }

  /**
   The pruned list decides each call exactly as a count over the full history of admitted calls
   would, when the call's clock value is no earlier than any before it.
   */
  lemma DecidesLikeFullHistory(calls: seq<Call>, key: string, limit: Limit, now: int)
    requires NoneAfter(calls, now)
    ensures var b := BookOf(calls, key, limit);
      Admits(b.entry, now, limit) <==> Count(b.admitted, now - limit.window, now) < limit.max
  {
    var b := BookOf(calls, key, limit);
    if limit.window == 0 {
      CountNone(b.entry, now, now);
      CountNone(b.admitted, now, now);
    } else {
      EntryKeepsCount(calls, key, limit, now - limit.window, now);
    }
    EntryAtMost(calls, key, limit, now);
    PrunedIsCount(b.entry, now, limit.window);
  }

  /** At most the configured number of admitted calls in (t - length, t]. */
  ghost predicate Bounded(calls: seq<Call>, key: string, limit: Limit, length: nat, t: int) {
    Count(BookOf(calls, key, limit).admitted, t - length, t) <= limit.max
  }

  lemma RecordBounded(b: Book, now: int, limit: Limit, lo: int, hi: int)
    requires Count(b.admitted, lo, hi) <= limit.max
    requires lo < now <= hi ==>
      now - limit.window <= lo && limit.window > 0 && Count(b.entry, lo, hi) == Count(b.admitted, lo, hi)
    ensures Count(Record(b, now, limit).admitted, lo, hi) <= limit.max
  {
    CountSnoc(b.admitted, now, lo, hi);
    if lo < now <= hi {
      PrunedKeepsCount(b.entry, now, limit.window, lo, hi);
    }
  }

  /**
   No interval of the given length ever holds more than the configured number of admitted calls,
   if the length and the slack of the clock together fit in the window. With clock values in
   order the slack is zero and the length is the window itself.
   */
  lemma {:induction false} WindowBound(calls: seq<Call>, key: string, limit: Limit, slack: nat, length: nat, t: int)
    requires StepsBackAtMost(calls, slack) && length + slack <= limit.window
    ensures Bounded(calls, key, limit, length, t)
    decreases |calls|
  {
    if calls != [] {
      var n := |calls| - 1;
      var init, now := calls[..n], calls[n].now;
      WindowBound(init, key, limit, slack, length, t);
      if calls[n].key == key {
        if t - length < now <= t {
          assert NoneAfter(init, t - length + limit.window);
          EntryKeepsCount(init, key, limit, t - length, t);
        }
        RecordBounded(BookOf(init, key, limit), now, limit, t - length, t);
      }
    }
  }

  function Of(calls: seq<Call>, key: string): seq<Call> {
    if calls == [] then []
    else
      var n := |calls| - 1;
      Of(calls[..n], key) + if calls[n].key == key then [calls[n]] else []
  }

  /** A key's list and admissions depend on that key's own calls only. */
  lemma {:induction false} OtherKeysDoNotMatter(calls: seq<Call>, key: string, limit: Limit)
    ensures BookOf(calls, key, limit) == BookOf(Of(calls, key), key, limit)
    decreases |calls|
  {
    if calls != [] {
      var n := |calls| - 1;
      var own := Of(calls[..n], key);
      OtherKeysDoNotMatter(calls[..n], key, limit);
      if calls[n].key == key {
        BookSnoc(own, calls[n], key, limit);
      } else {
        assert Of(calls, key) == own;
      }
    }
  }

  // A limit of one needs no assumption on the clock.

  /** Each admitted call at least a window after the one before. */
  ghost predicate Spaced(times: seq<int>, window: nat) {
    forall i, j :: 0 <= i < j < |times| ==> times[i] + window <= times[j]
  }

  /** The list is the last admitted call, and admitted calls are spaced. */
  ghost predicate Single(b: Book, window: nat) {
    var n := |b.admitted|;
    Spaced(b.admitted, window) && b.entry == if n == 0 then [] else [b.admitted[n - 1]]
  }

  lemma SpacedSnoc(times: seq<int>, t: int, window: nat)
    requires Spaced(times, window) && (times == [] || times[|times| - 1] + window <= t)
    ensures Spaced(times + [t], window)
  {
    forall i | 0 <= i < |times| ensures times[i] + window <= t {
      assert i < |times| - 1 ==> times[i] + window <= times[|times| - 1];
    }
  }

  lemma RecordSingle(b: Book, now: int, limit: Limit)
    requires limit.max == 1 && limit.window > 0 && Single(b, limit.window)
    ensures Single(Record(b, now, limit), limit.window)
  {
    var n := |b.admitted|;
    var last := if n == 0 then now else b.admitted[n - 1];
    PrunedUniform(b.entry, last, now, limit.window);
    if |Pruned(b.entry, now, limit.window)| < 1 {
      SpacedSnoc(b.admitted, now, limit.window);
    }
  }

  lemma {:induction false} BookSingle(calls: seq<Call>, key: string, limit: Limit)
    requires limit.max == 1 && limit.window > 0
    ensures Single(BookOf(calls, key, limit), limit.window)
    decreases |calls|
  {
    if calls != [] {
      var n := |calls| - 1;
      BookSingle(calls[..n], key, limit);
      if calls[n].key == key {
        RecordSingle(BookOf(calls[..n], key, limit), calls[n].now, limit);
      }
    }
  }

  lemma {:induction false} CountSpaced(times: seq<int>, window: nat, lo: int, hi: int)
    requires Spaced(times, window) && hi - lo <= window
    ensures Count(times, lo, hi) <= 1
    decreases |times|
  {
    if times != [] {
      var n := |times| - 1;
      CountSpaced(times[..n], window, lo, hi);
      if times[n] <= hi {
        CountNone(times[..n], lo, hi);
      }
    }
  }

  /** Under a limit of one, intervals up to the window are bounded whatever the clock does. */
  lemma SingleBound(calls: seq<Call>, key: string, limit: Limit, length: nat, t: int)
    requires limit.max == 1 && length <= limit.window
    ensures Bounded(calls, key, limit, length, t)
  {
    var b := BookOf(calls, key, limit);
    if length == 0 {
      CountNone(b.admitted, t, t);
    } else {
      BookSingle(calls, key, limit);
      CountSpaced(b.admitted, limit.window, t - length, t);
    }
  }

  lemma {:induction false} NoneAdmitted(calls: seq<Call>, key: string, limit: Limit)
    requires limit.max == 0
    ensures BookOf(calls, key, limit).admitted == []
    decreases |calls|
  {
    if calls != [] {
      NoneAdmitted(calls[..|calls| - 1], key, limit);
    }
  }

  // How much a clock that steps back costs, exactly.

  /** The calls, all at one time. */
  function Burst(key: string, now: int, n: nat): (calls: seq<Call>)
    ensures |calls| == n && forall i :: 0 <= i < n ==> calls[i] == Call(key, now)
  {
    if n == 0 then [] else Burst(key, now, n - 1) + [Call(key, now)]
  }

  ghost predicate Uniform(times: seq<int>, t: int) {
    forall k :: 0 <= k < |times| ==> times[k] == t
  }

  lemma {:induction false} PrunedUniform(times: seq<int>, t: int, now: int, window: nat)
    requires Uniform(times, t)
    ensures Pruned(times, now, window) == if Elapsed(now, t) < window then times else []
    decreases |times|
  {
    if times != [] {
      var n := |times| - 1;
      PrunedUniform(times[..n], t, now, window);
      assert times[..n] + [t] == times;
    }
  }

  /** A call admitted over a list of equal times. */
  lemma RecordOver(b: Book, t: int, now: int, limit: Limit, lo: int, hi: int)
    requires Uniform(b.entry, t) && (if Elapsed(now, t) < limit.window then |b.entry| else 0) < limit.max
    ensures var b' := Record(b, now, limit);
      && b'.entry == (if Elapsed(now, t) < limit.window then b.entry else []) + [now]
      && Count(b'.admitted, lo, hi) == Count(b.admitted, lo, hi) + if lo < now <= hi then 1 else 0
  {
    PrunedUniform(b.entry, t, now, limit.window);
    CountSnoc(b.admitted, now, lo, hi);
  }

  /** A book of equal times whose admitted calls number n in the interval. */
  ghost predicate Holds(b: Book, t: int, n: nat, lo: int, hi: int) {
    Uniform(b.entry, t) && |b.entry| <= n && Count(b.admitted, lo, hi) == n
  }

  lemma HoldsOneMore(b: Book, now: int, n: nat, limit: Limit, lo: int, hi: int)
    requires Holds(b, now, n, lo, hi) && n < limit.max && lo < now <= hi
    ensures Holds(Record(b, now, limit), now, n + 1, lo, hi)
  {
    RecordOver(b, now, now, limit, lo, hi);
  }

  lemma {:induction false} BurstAdmitted(key: string, now: int, n: nat, limit: Limit, lo: int, hi: int)
    requires n <= limit.max && lo < now <= hi
    ensures Holds(BookOf(Burst(key, now, n), key, limit), now, n, lo, hi)
    decreases n
  {
    if n > 0 {
      BurstAdmitted(key, now, n - 1, limit, lo, hi);
      BookSnoc(Burst(key, now, n - 1), Call(key, now), key, limit);
      HoldsOneMore(BookOf(Burst(key, now, n - 1), key, limit), now, n - 1, limit, lo, hi);
    }
  }

  /** A full burst, a call that forgets it, and one whose clock value is older by the slack. */
  function LateCall(key: string, limit: Limit, slack: nat): seq<Call> {
    Burst(key, 0, limit.max) + [Call(key, limit.window)] + [Call(key, limit.window - slack)]
  }

  lemma LateRecords(b: Book, limit: Limit, late: int, lo: int)
    requires Holds(b, 0, limit.max, lo, late) && limit.max >= 2 && lo < late <= limit.window
    ensures Count(Record(Record(b, limit.window, limit), late, limit).admitted, lo, late) > limit.max
  {
    RecordOver(b, 0, limit.window, limit, lo, late);
    var b' := Record(b, limit.window, limit);
    assert b'.entry == [limit.window];
    RecordOver(b', limit.window, late, limit, lo, late);
  }

  lemma BookTwoMore(calls: seq<Call>, key: string, limit: Limit, t: int, u: int)
    ensures BookOf(calls + [Call(key, t)] + [Call(key, u)], key, limit) ==
      Record(Record(BookOf(calls, key, limit), t, limit), u, limit)
  {
    BookSnoc(calls, Call(key, t), key, limit);
    BookSnoc(calls + [Call(key, t)], Call(key, u), key, limit);
  }

  lemma LateCallStepsBack(key: string, limit: Limit, slack: nat)
    requires slack <= limit.window
    ensures StepsBackAtMost(LateCall(key, limit, slack), slack)
  {
  }

  lemma LateCallOverAdmits(burst: seq<Call>, calls: seq<Call>, key: string, limit: Limit, late: int, length: nat)
    requires limit.max >= 2 && late <= limit.window
    requires Holds(BookOf(burst, key, limit), 0, limit.max, late - length, late) && length > 0
    requires calls == burst + [Call(key, limit.window)] + [Call(key, late)]
    ensures !Bounded(calls, key, limit, length, late)
  {
    BookTwoMore(burst, key, limit, limit.window, late);
    LateRecords(BookOf(burst, key, limit), limit, late, late - length);
  }

  /** A full burst, and one more call as soon as it is forgotten. */
  function PromptCall(key: string, limit: Limit): seq<Call> {
    Burst(key, 0, limit.max) + [Call(key, limit.window)]
  }

  lemma PromptCallInOrder(key: string, limit: Limit)
    ensures StepsBackAtMost(PromptCall(key, limit), 0)
  {
  }

  lemma PromptCallOverAdmits(b: Book, calls: seq<Call>, key: string, limit: Limit, length: nat)
    requires limit.max >= 1 && length > 0 && Holds(b, 0, limit.max, limit.window - length, limit.window)
    requires BookOf(calls, key, limit) == Record(b, limit.window, limit)
    ensures !Bounded(calls, key, limit, length, limit.window)
  {
    PromptRecord(b, limit, limit.window - length);
  }

  lemma PromptRecord(b: Book, limit: Limit, lo: int)
    requires Holds(b, 0, limit.max, lo, limit.window) && limit.max >= 1 && lo < limit.window
    ensures Count(Record(b, limit.window, limit).admitted, lo, limit.window) > limit.max
  {
    RecordOver(b, 0, limit.window, limit, lo, limit.window);
  }

  /** The intervals a limiter bounds when clock values may step back by the slack. */
  predicate Guaranteed(limit: Limit, slack: nat, length: nat) {
    || limit.max == 0 || length == 0
    || (if limit.max == 1 then length <= limit.window else length + slack <= limit.window)
  }

  lemma GuaranteedBound(calls: seq<Call>, key: string, limit: Limit, slack: nat, length: nat, t: int)
    requires Guaranteed(limit, slack, length) && StepsBackAtMost(calls, slack)
    ensures Bounded(calls, key, limit, length, t)
  {
    if limit.max == 0 {
      NoneAdmitted(calls, key, limit);
    } else if length == 0 {
      CountNone(BookOf(calls, key, limit).admitted, t, t);
    } else if limit.max == 1 {
      SingleBound(calls, key, limit, length, t);
    } else {
      WindowBound(calls, key, limit, slack, length, t);
    }
  }

  lemma NotGuaranteedFails(key: string, limit: Limit, slack: nat, length: nat) returns (calls: seq<Call>, t: int)
    requires !Guaranteed(limit, slack, length)
    ensures StepsBackAtMost(calls, slack) && !Bounded(calls, key, limit, length, t)
  {
    if limit.max == 1 {
      calls, t := PromptCall(key, limit), limit.window;
      PromptCallInOrder(key, limit);
      PromptCallFails(key, limit, length);
    } else {
      var back := if slack <= limit.window then slack else limit.window;
      calls, t := LateCall(key, limit, back), limit.window - back;
      LateCallStepsBack(key, limit, back);
      LateCallFails(key, limit, back, length, t);
    }
  }

  lemma PromptCallFails(key: string, limit: Limit, length: nat)
    requires limit.max >= 1 && length > limit.window
    ensures !Bounded(PromptCall(key, limit), key, limit, length, limit.window)
  {
    var burst, t := Burst(key, 0, limit.max), limit.window;
    BurstAdmitted(key, 0, limit.max, limit, t - length, t);
    BookSnoc(burst, Call(key, t), key, limit);
    PromptCallOverAdmits(BookOf(burst, key, limit), PromptCall(key, limit), key, limit, length);
  }

  lemma LateCallFails(key: string, limit: Limit, slack: nat, length: nat, late: int)
    requires limit.max >= 2 && slack <= limit.window < length + slack && late == limit.window - slack
    ensures !Bounded(LateCall(key, limit, slack), key, limit, length, late)
  {
    BurstAdmitted(key, 0, limit.max, limit, late - length, late);
    LateCallOverAdmits(Burst(key, 0, limit.max), LateCall(key, limit, slack), key, limit, late, length);
  }

  /**
   Exactly which interval lengths are bounded in every run of a clock with the given slack, for
   every limit: those that fit in the window together with the slack; under a limit of one those
   that fit in the window, whatever the slack; all of them when nothing is ever admitted.
   */
  lemma WindowBoundIff(key: string, limit: Limit, slack: nat, length: nat)
    ensures Guaranteed(limit, slack, length) <==>
      forall calls: seq<Call>, t: int :: StepsBackAtMost(calls, slack) ==> Bounded(calls, key, limit, length, t)
  {
    if Guaranteed(limit, slack, length) {
      forall calls: seq<Call>, t: int | StepsBackAtMost(calls, slack) ensures Bounded(calls, key, limit, length, t) {
        GuaranteedBound(calls, key, limit, slack, length, t);
      }
    } else {
      var calls, t := NotGuaranteedFails(key, limit, slack, length);
    }
  }
}
