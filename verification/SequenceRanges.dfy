/** The half-consumed number range a caller takes sequence numbers from. */
module SequenceRanges {
  import opened Options
  import opened Integers

  /** Integers are exact as Lua numbers up to here, 2^53. */
  const MAX_EXACT: nat := 0x20_0000_0000_0000

  function SaturatingAdd(a: nat, b: nat): U64 {
    if a + b > U64_MAX then U64_MAX else a + b
  }

  ghost predicate Increasing(s: seq<int>) {
    forall i, j :: 0 <= i < j < |s| ==> s[i] < s[j]
  }

  datatype SequenceRange = SequenceRange(next: U64, end: U64) {
    predicate Contains(k: int) {
      next <= k <= end
    }

    function TakeNext(): (Option<U64>, SequenceRange) {
      if next > end then (None, this)
      else (Some(next), SequenceRange(SaturatingAdd(next, 1), end))
    }
  }

  /** The results of `k` successive calls of TakeNext. */
  function Drain(r: SequenceRange, k: nat): (out: seq<Option<U64>>)
    ensures |out| == k
    decreases k
  {
    if k == 0 then []
    else
      var (x, r') := r.TakeNext();
      [x] + Drain(r', k - 1)
  }

  /** A range whose end fits below the top of u64 yields next..end once each, then nothing. */
  lemma {:induction false} DrainBelowTop(r: SequenceRange, k: nat)
    requires r.end < U64_MAX
    ensures forall i :: 0 <= i < k ==>
      Drain(r, k)[i] == if r.next + i <= r.end then Some(r.next + i) else None
    decreases k
  {
    if k > 0 {
      DrainBelowTop(r.TakeNext().1, k - 1);
    }
  }

  ghost predicate NeverRepeats(r: SequenceRange) {
    forall k: nat, i, j :: 0 <= i < j < k && Drain(r, k)[i].Some? ==> Drain(r, k)[i] != Drain(r, k)[j]
  }

  /** `saturating_add` repeats a number exactly when the range ends at the top of u64. */
  lemma {:induction false} NeverRepeatsIffBelowTop(r: SequenceRange)
    ensures NeverRepeats(r) <==> r.end < U64_MAX
  {
    if r.end < U64_MAX {
      forall k: nat, i, j | 0 <= i < j < k && Drain(r, k)[i].Some?
        ensures Drain(r, k)[i] != Drain(r, k)[j]
      {
        DrainBelowTop(r, k);
      }
    } else {
      DrainAtTop(r, U64_MAX - r.next + 2);
    }
  }

  lemma {:induction false} DrainAtTop(r: SequenceRange, k: nat)
    requires r.end == U64_MAX && k >= U64_MAX - r.next + 2
    ensures Drain(r, k)[k - 2] == Drain(r, k)[k - 1] == Some(U64_MAX)
    decreases k
  {
    var r' := r.TakeNext().1;
    if k > 2 {
      DrainAtTop(r', k - 1);
    } else {
      assert Drain(r', 1) == [Some(U64_MAX)] + Drain(r'.TakeNext().1, 0);
    }
  }
}
