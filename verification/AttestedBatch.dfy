/** Attested delivery: a batch goes to the inner handler without its unattestable records. */
module AttestedBatch {
  import opened Options

  datatype Handler<!M, !R, !E> = Handler(
    attest: M -> Option<M>,
    inner: M -> Result<R, E>,
    innerBatch: seq<M> -> Result<seq<R>, E>,
    deadLetter: R,
    countMismatch: E)

  /** `handle`: the inner handler on the attested record, or the dead letter. */
  function Handle<M, R, E>(h: Handler<M, R, E>, m: M): Result<R, E> {
    match h.attest(m)
    case Some(m') => h.inner(m')
    case None => Ok(h.deadLetter)
  }

  /** The attestable records, attested, in order. */
  function Attested<M, R, E>(h: Handler<M, R, E>, ms: seq<M>): (out: seq<M>)
    ensures |out| <= |ms|
  {
    if ms == [] then []
    else
      var n := |ms| - 1;
      var a := h.attest(ms[n]);
      Attested(h, ms[..n]) + if a.Some? then [a.value] else []
  }

  /** Position of record i among the attested ones. */
  function Rank<M, R, E>(h: Handler<M, R, E>, ms: seq<M>, i: nat): nat
    requires i <= |ms|
  {
    |Attested(h, ms[..i])|
  }

  /** What the batch call answers, given the inner batch's answer. */
  ghost predicate Scattered<M, R, E>(h: Handler<M, R, E>, ms: seq<M>, inner: seq<R>, out: seq<R>) {
    && |out| == |ms|
    && forall i :: 0 <= i < |ms| ==>
         if h.attest(ms[i]) == None then out[i] == h.deadLetter
         else Rank(h, ms, i) < |inner| && out[i] == inner[Rank(h, ms, i)]
  }

  /** The positions of the attestable records, in order. */
  function PositionsOf<M, R, E>(h: Handler<M, R, E>, ms: seq<M>): (out: seq<nat>)
    ensures |out| == |Attested(h, ms)|
  {
    if ms == [] then []
    else
      var n := |ms| - 1;
      PositionsOf(h, ms[..n]) + if h.attest(ms[n]).Some? then [n] else []
  }

  /** Each position is that of an attestable record, and the record's rank is where it stands. */
  lemma {:induction false} PositionHasRank<M, R, E>(h: Handler<M, R, E>, ms: seq<M>, k: nat)
    requires k < |PositionsOf(h, ms)|
    ensures var p := PositionsOf(h, ms)[k];
      p < |ms| && h.attest(ms[p]) == Some(Attested(h, ms)[k]) && Rank(h, ms, p) == k
    decreases |ms|
  {
    var n := |ms| - 1;
    if k < |PositionsOf(h, ms[..n])| {
      PositionHasRank(h, ms[..n], k);
      assert ms[..n][..PositionsOf(h, ms)[k]] == ms[..PositionsOf(h, ms)[k]];
    }
  }

  lemma {:induction false} RankHasPosition<M, R, E>(h: Handler<M, R, E>, ms: seq<M>, i: nat)
    requires i < |ms| && h.attest(ms[i]).Some?
    ensures Rank(h, ms, i) < |PositionsOf(h, ms)| && PositionsOf(h, ms)[Rank(h, ms, i)] == i
    decreases |ms|
  {
    var n := |ms| - 1;
    if i < n {
      RankHasPosition(h, ms[..n], i);
      assert ms[..n][..i] == ms[..i];
    }
  }

  /** The first loop of `handle_batch`. */
  method Collect<M, R, E>(h: Handler<M, R, E>, ms: seq<M>) returns (positions: seq<nat>, attested: seq<M>)
    ensures attested == Attested(h, ms) && positions == PositionsOf(h, ms)
  {
    positions, attested := [], [];
    var i := 0;
    while i < |ms|
      invariant 0 <= i <= |ms| && attested == Attested(h, ms[..i]) && positions == PositionsOf(h, ms[..i])
    {
      assert ms[..i + 1][..i] == ms[..i];
      var a := h.attest(ms[i]);
      if a.Some? {
        positions, attested := positions + [i], attested + [a.value];
      }
      i := i + 1;
    }
    assert ms[..i] == ms;
  }

  /** The answer to a batch, from what the inner handler says to the attestable records. */
  ghost predicate Answers<M, R, E>(h: Handler<M, R, E>, ms: seq<M>, r: Result<seq<R>, E>) {
    var seen := Attested(h, ms);
    if seen == [] then r.Ok? && Scattered(h, ms, [], r.value)
    else
      var inner := h.innerBatch(seen);
      if inner.Err? then r == Err(inner.error)
      else if |inner.value| != |seen| then r == Err(h.countMismatch)
      else r.Ok? && Scattered(h, ms, inner.value, r.value)
  }

  /**
   `handle_batch`: the inner handler sees exactly the attestable records in order, and not at all
   when there are none; its answers go back to their positions, every other position is the dead
   letter, and a wrong count of answers is an error.
   */
  method HandleBatch<M, R, E>(h: Handler<M, R, E>, ms: seq<M>) returns (r: Result<seq<R>, E>)
    ensures Answers(h, ms, r)
  {
    var results := seq(|ms|, _ => h.deadLetter);
    var positions, attested := Collect(h, ms);
    forall i | 0 <= i < |ms| && h.attest(ms[i]).Some?
      ensures Rank(h, ms, i) < |positions| && positions[Rank(h, ms, i)] == i
    {
      RankHasPosition(h, ms, i);
    }
    if |attested| > 0 {
      var inner := h.innerBatch(attested);
      if inner.Err? {
        return Err(inner.error);
      }
      if |inner.value| != |positions| {
        return Err(h.countMismatch);
      }
      var k := 0;
      while k < |positions|
        invariant 0 <= k <= |positions| && |results| == |ms|
        invariant forall i :: 0 <= i < |ms| && h.attest(ms[i]).Some? && Rank(h, ms, i) < k ==>
          results[i] == inner.value[Rank(h, ms, i)]
        invariant forall i :: 0 <= i < |ms| && h.attest(ms[i]).None? ==> results[i] == h.deadLetter
      {
        PositionHasRank(h, ms, k);
        results := results[positions[k] := inner.value[k]];
        k := k + 1;
      }
    }
    r := Ok(results);
  }

  /** The inner batch answers as its single form does, record by record, and fails if any record fails. */
  ghost predicate Pointwise<M(!new), R, E>(h: Handler<M, R, E>) {
    forall ms :: if AllOk(h, ms)
      then h.innerBatch(ms) == Ok(seq(|ms|, i requires 0 <= i < |ms| && h.inner(ms[i]).Ok? => h.inner(ms[i]).value))
      else h.innerBatch(ms).Err?
  }

  lemma RankPicks<M, R, E>(h: Handler<M, R, E>, ms: seq<M>, i: nat)
    requires i < |ms| && h.attest(ms[i]).Some?
    ensures Rank(h, ms, i) < |Attested(h, ms)| && Attested(h, ms)[Rank(h, ms, i)] == h.attest(ms[i]).value
  {
    RankHasPosition(h, ms, i);
    PositionHasRank(h, ms, Rank(h, ms, i));
  }

  ghost predicate AllOk<M(!new), R, E>(h: Handler<M, R, E>, ms: seq<M>) {
    forall i :: 0 <= i < |ms| ==> h.inner(ms[i]).Ok?
  }

  /** The inner handler answers all attestable records iff every single call answers. */
  lemma AttestedOk<M(!new), R, E>(h: Handler<M, R, E>, ms: seq<M>)
    ensures AllOk(h, Attested(h, ms)) <==> forall i :: 0 <= i < |ms| ==> Handle(h, ms[i]).Ok?
  {
    var seen := Attested(h, ms);
    if AllOk(h, seen) {
      forall i | 0 <= i < |ms| ensures Handle(h, ms[i]).Ok? {
        if h.attest(ms[i]).Some? {
          RankPicks(h, ms, i);
        }
      }
    } else {
      var k :| 0 <= k < |seen| && h.inner(seen[k]).Err?;
      PositionHasRank(h, ms, k);
      assert Handle(h, ms[PositionsOf(h, ms)[k]]).Err?;
    }
  }

  lemma SameAnswers<M(!new), R, E>(h: Handler<M, R, E>, ms: seq<M>, inner: seq<R>, out: seq<R>)
    requires Scattered(h, ms, inner, out) && |inner| == |Attested(h, ms)|
    requires forall k :: 0 <= k < |inner| ==> h.inner(Attested(h, ms)[k]) == Ok(inner[k])
    ensures forall i :: 0 <= i < |ms| ==> Handle(h, ms[i]) == Ok(out[i])
  {
    forall i | 0 <= i < |ms| ensures Handle(h, ms[i]) == Ok(out[i]) {
      if h.attest(ms[i]).Some? {
        RankPicks(h, ms, i);
      }
    }
  }

  /** Batch refines single: it succeeds iff every record's single call does, and then with the same answers. */
  lemma BatchRefinesSingle<M(!new), R, E>(h: Handler<M, R, E>, ms: seq<M>, r: Result<seq<R>, E>)
    requires Pointwise(h) && Answers(h, ms, r)
    ensures r.Ok? <==> forall i :: 0 <= i < |ms| ==> Handle(h, ms[i]).Ok?
    ensures r.Ok? ==> |r.value| == |ms| && forall i :: 0 <= i < |ms| ==> Handle(h, ms[i]) == Ok(r.value[i])
  {
    var seen := Attested(h, ms);
    AttestedOk(h, ms);
    assert seen == [] ==> AllOk(h, seen);
    if seen != [] {
      assert AllOk(h, seen) <==> h.innerBatch(seen).Ok?;
    }
    if r.Ok? {
      SameAnswers(h, ms, if seen == [] then [] else h.innerBatch(seen).value, r.value);
    }
  }

  lemma {:induction false} NoneAttestable<M, R, E>(h: Handler<M, R, E>, ms: seq<M>)
    ensures Attested(h, ms) == [] <==> forall i :: 0 <= i < |ms| ==> h.attest(ms[i]) == None
  {
    if Attested(h, ms) == [] {
      forall i | 0 <= i < |ms| ensures h.attest(ms[i]) == None {
        if h.attest(ms[i]).Some? {
          RankPicks(h, ms, i);
        }
      }
    } else {
      PositionHasRank(h, ms, 0);
    }
  }

  /**
   What a batch answers, case by case: all dead letters when nothing is attestable; the inner
   error; an error when the inner handler answers more or fewer records than it was given; and
   otherwise, position by position, the dead letter or that record's own answer.
   */
  lemma BatchAnswers<M, R, E>(h: Handler<M, R, E>, ms: seq<M>, r: Result<seq<R>, E>)
    requires Answers(h, ms, r)
    ensures (forall i :: 0 <= i < |ms| ==> h.attest(ms[i]) == None) ==>
      r.Ok? && |r.value| == |ms| && forall i :: 0 <= i < |ms| ==> r.value[i] == h.deadLetter
    ensures (exists i :: 0 <= i < |ms| && h.attest(ms[i]).Some?) ==>
      var given, inner := Attested(h, ms), h.innerBatch(Attested(h, ms));
      && (inner.Err? ==> r == Err(inner.error))
      && (inner.Ok? && |inner.value| != |given| ==> r == Err(h.countMismatch))
      && (inner.Ok? && |inner.value| == |given| ==> r.Ok? && |r.value| == |ms|)
    ensures r.Ok? ==> forall i :: 0 <= i < |ms| && h.attest(ms[i]) == None ==> r.value[i] == h.deadLetter
    ensures r.Ok? && Attested(h, ms) != [] ==>
      forall k :: 0 <= k < |Attested(h, ms)| ==>
        var p := PositionsOf(h, ms)[k]; p < |ms| && r.value[p] == h.innerBatch(Attested(h, ms)).value[k]
  {
    NoneAttestable(h, ms);
    if r.Ok? && Attested(h, ms) != [] {
      forall k | 0 <= k < |Attested(h, ms)|
        ensures var p := PositionsOf(h, ms)[k]; p < |ms| && r.value[p] == h.innerBatch(Attested(h, ms)).value[k]
      {
        PositionHasRank(h, ms, k);
      }
    }
  }
}
