/** The bounded service log: numbered files, rotated when the current one is full. */
module RotatingLog {
  import opened Options

  type Data = seq<int>

  /** File 0 is the log itself, file i its i-th backup. */
  type Files = map<nat, Data>

  function Content(files: Files, i: nat): Data {
    if i in files then files[i] else []
  }

  /** The files up to b, read oldest to newest. */
  function Chronicle(files: Files, b: nat): Data {
    if b == 0 then Content(files, 0) else Content(files, b) + Chronicle(files, b - 1)
  }

  ghost predicate IsSuffix(part: Data, whole: Data) {
    |part| <= |whole| && part == whole[|whole| - |part|..]
  }

  predicate Bounded(files: Files, limit: nat, b: nat) {
    forall i :: 0 <= i <= b && i in files ==> |files[i]| <= limit
  }

  function Tail(data: Data, limit: nat): Data {
    if |data| > limit then data[|data| - limit..] else data
  }

  /** The last `limit` bytes of each file, oldest file first: what opening leaves of them. */
  function LastBytes(files: Files, limit: nat, b: nat): Data {
    if b == 0 then Tail(Content(files, 0), limit) else Tail(Content(files, b), limit) + LastBytes(files, limit, b - 1)
  }

  lemma {:induction false} OpenedChronicle(files: Files, after: Files, limit: nat, b: nat)
    requires forall i: nat :: i <= b ==> Content(after, i) == Tail(Content(files, i), limit)
    ensures Chronicle(after, b) == LastBytes(files, limit, b)
    decreases b
  {
    if b > 0 {
      OpenedChronicle(files, after, limit, b - 1);
    }
  }

  // Rotation.

  /** What slot i holds after a rotation, None when there is no such file. */
  function Slot(files: Files, b: nat, i: nat): Option<Data> {
    if i == 0 then Some([])
    else if i == 1 && b >= 1 then Some(Content(files, 0))
    else if i > b then Held(files, i)
    else if i - 1 in files then Some(files[i - 1])
    else if i == b then Held(files, b)
    else None
  }

  function Held(files: Files, i: nat): Option<Data> {
    if i in files then Some(files[i]) else None
  }

  ghost predicate Rotated(files: Files, b: nat, files': Files) {
    forall i: nat :: Held(files', i) == Slot(files, b, i)
  }

  lemma {:induction false} RotatedBelow(files: Files, b: nat, files': Files, j: nat)
    requires Rotated(files, b, files') && 1 <= j <= b && (j < b || b == 1 || j - 1 in files)
    requires 0 in files
    ensures Chronicle(files', j) == Chronicle(files, j - 1)
    decreases j
  {
    assert Held(files', j) == Slot(files, b, j) && Held(files', 0) == Slot(files, b, 0);
    if j == 1 {
      assert Chronicle(files', 0) == [];
    } else {
      RotatedBelow(files, b, files', j - 1);
    }
  }

  /** The oldest file is overwritten: exactly its bytes are lost. */
  lemma RotationDropsOldest(files: Files, b: nat, files': Files)
    requires Rotated(files, b, files') && 0 in files && b >= 1 && (b == 1 || b - 1 in files)
    ensures Chronicle(files, b) == Content(files, b) + Chronicle(files', b)
  {
    RotatedBelow(files, b, files', b);
  }

  /** The slot before the oldest is empty: nothing is lost. */
  lemma RotationDropsNothing(files: Files, b: nat, files': Files)
    requires Rotated(files, b, files') && 0 in files && b >= 2 && b - 1 !in files
    ensures Chronicle(files', b) == Chronicle(files, b)
  {
    assert Held(files', b) == Slot(files, b, b);
    assert Content(files', b) == Content(files, b) && Content(files, b - 1) == [];
    RotatedBelow(files, b, files', b - 1);
    assert Chronicle(files, b - 1) == Chronicle(files, b - 2);
  }

  /** Rotation only ever drops the oldest bytes. */
  lemma RotationKeepsSuffix(files: Files, b: nat, files': Files)
    requires Rotated(files, b, files') && 0 in files
    ensures IsSuffix(Chronicle(files', b), Chronicle(files, b))
  {
    if b == 0 {
      assert Held(files', 0) == Slot(files, 0, 0);
    } else if b == 1 || b - 1 in files {
      RotationDropsOldest(files, b, files');
    } else {
      RotationDropsNothing(files, b, files');
    }
  }

  lemma SuffixTrans(a: Data, b: Data, c: Data)
    requires IsSuffix(a, b) && IsSuffix(b, c)
    ensures IsSuffix(a, c)
  {
  }

  lemma SuffixAppend(a: Data, b: Data, x: Data)
    requires IsSuffix(a, b)
    ensures IsSuffix(a + x, b + x)
  {
  }

  /** Appending to the log appends to what is read. */
  lemma {:induction false} ChronicleAppend(files: Files, b: nat, chunk: Data)
    requires 0 in files
    ensures Chronicle(files[0 := files[0] + chunk], b) == Chronicle(files, b) + chunk
    decreases b
  {
    if b > 0 {
      ChronicleAppend(files, b - 1, chunk);
    }
  }

  // How much is kept.

  /** The newest k backups are full. */
  ghost predicate Full(files: Files, limit: nat, k: nat) {
    forall i :: 1 <= i <= k ==> i in files && |files[i]| == limit
  }

  lemma RotationKeepsFull(files: Files, b: nat, files': Files, limit: nat, k: nat)
    requires Rotated(files, b, files') && 0 in files && |files[0]| == limit && Full(files, limit, k) && k < b
    ensures Full(files', limit, k + 1)
  {
    forall i | 1 <= i <= k + 1 ensures i in files' && |files'[i]| == limit {
      assert Held(files', i) == Slot(files, b, i);
    }
  }

  lemma RotationKeepsAllFull(files: Files, b: nat, files': Files, limit: nat)
    requires Rotated(files, b, files') && 0 in files && |files[0]| == limit && Full(files, limit, b)
    ensures Full(files', limit, b)
  {
    forall i | 1 <= i <= b ensures i in files' && |files'[i]| == limit {
      assert Held(files', i) == Slot(files, b, i);
    }
  }

  lemma {:induction false} FullLength(files: Files, limit: nat, k: nat, b: nat)
    requires Full(files, limit, k) && k <= b
    ensures |Chronicle(files, b)| >= |Content(files, 0)| + k * limit
    decreases b
  {
    if b > 0 {
      if k < b {
        FullLength(files, limit, k, b - 1);
      } else {
        FullLength(files, limit, k - 1, b - 1);
        assert k * limit == (k - 1) * limit + limit;
      }
    }
  }

  /** `written` bytes since opening: all still there, or every backup full. */
  ghost predicate Kept(files: Files, limit: nat, b: nat, written: nat, k: nat) {
    && k <= b && Full(files, limit, k)
    && (k < b ==> written <= |Content(files, 0)| + k * limit)
  }

  /** At least min(written, backups * limit) bytes are kept. */
  lemma KeptLength(files: Files, limit: nat, b: nat, written: nat, k: nat)
    requires Kept(files, limit, b, written, k)
    ensures |Chronicle(files, b)| >= Retained(written, limit, b)
  {
    FullLength(files, limit, k, b);
  }

  /** All files together stay within (backups + 1) * limit. */
  lemma {:induction false} TotalBound(files: Files, limit: nat, b: nat)
    requires Bounded(files, limit, b)
    ensures |Chronicle(files, b)| <= (b + 1) * limit
    decreases b
  {
    if b > 0 {
      TotalBound(files, limit, b - 1);
      assert (b + 1) * limit == b * limit + limit;
    }
  }

  /** min(written, backups * limit) */
  function Retained(written: nat, limit: nat, b: nat): (n: nat)
    ensures n <= written
  {
    if written < b * limit then written else b * limit
  }

  /**
   What a reader finds: every file within the limit, the whole within (backups + 1) * limit, exactly
   the end of the last `limit` bytes of each file that was there, in order, plus all that was
   written, and at least the last min(written, backups * limit) bytes of what was written.
   */
  ghost predicate Promise(files: Files, limit: nat, b: nat, existing: Files, written: Data) {
    && Bounded(files, limit, b)
    && |Chronicle(files, b)| <= (b + 1) * limit
    && IsSuffix(Chronicle(files, b), LastBytes(existing, limit, b) + written)
    && IsSuffix(written[|written| - Retained(|written|, limit, b)..], Chronicle(files, b))
  }

  lemma SuffixOfBoth(kept: nat, chronicle: Data, initial: Data, written: Data)
    requires IsSuffix(chronicle, initial + written) && kept <= |written| && kept <= |chronicle|
    ensures IsSuffix(written[|written| - kept..], chronicle)
  {
    var all := initial + written;
    assert written[|written| - kept..] == all[|all| - kept..];
    assert chronicle[|chronicle| - kept..] == all[|all| - kept..];
  }

  lemma RotatedBounded(files: Files, limit: nat, b: nat, files': Files)
    requires Rotated(files, b, files') && Bounded(files, limit, b) && 0 in files
    ensures Bounded(files', limit, b) && Content(files', 0) == [] && 0 in files'
  {
    forall i | 0 <= i <= b && i in files' ensures |files'[i]| <= limit {
      assert Held(files', i) == Slot(files, b, i);
    }
    assert Held(files', 0) == Slot(files, b, 0);
  }

  /** What every method keeps: within the limit, the end of everything, and the newest backups full. */
  ghost predicate Tracks(files: Files, limit: nat, b: nat, initial: Data, written: Data, full: nat) {
    && 0 in files && Bounded(files, limit, b)
    && IsSuffix(Chronicle(files, b), initial + written)
    && Kept(files, limit, b, |written|, full)
  }

  lemma TracksOpened(existing: Files, files: Files, limit: nat, b: nat)
    requires 0 in files && forall i: nat :: i <= b ==> Content(files, i) == Tail(Content(existing, i), limit)
    ensures Tracks(files, limit, b, LastBytes(existing, limit, b), [], 0)
  {
    OpenedChronicle(existing, files, limit, b);
    forall i | 0 <= i <= b && i in files ensures |files[i]| <= limit {
      assert Content(files, i) == Tail(Content(existing, i), limit);
    }
    var initial := LastBytes(existing, limit, b);
    assert initial + [] == initial;
  }

  lemma TracksAppend(files: Files, limit: nat, b: nat, initial: Data, written: Data, full: nat, chunk: Data)
    requires Tracks(files, limit, b, initial, written, full) && |files[0]| + |chunk| <= limit
    ensures Tracks(files[0 := files[0] + chunk], limit, b, initial, written + chunk, full)
  {
    ChronicleAppend(files, b, chunk);
    SuffixAppend(Chronicle(files, b), initial + written, chunk);
    assert initial + written + chunk == initial + (written + chunk);
  }

  lemma TracksRotate(files: Files, limit: nat, b: nat, initial: Data, written: Data, full: nat, files': Files)
    requires Tracks(files, limit, b, initial, written, full) && |files[0]| == limit && Rotated(files, b, files')
    ensures Tracks(files', limit, b, initial, written, if full < b then full + 1 else full)
  {
    RotationKeepsSuffix(files, b, files');
    SuffixTrans(Chronicle(files', b), Chronicle(files, b), initial + written);
    RotatedBounded(files, limit, b, files');
    if full < b {
      RotationKeepsFull(files, b, files', limit, full);
      assert (full + 1) * limit == full * limit + limit;
    } else {
      RotationKeepsAllFull(files, b, files', limit);
    }
  }

  lemma TracksRetained(files: Files, limit: nat, b: nat, initial: Data, written: Data, full: nat)
    requires Tracks(files, limit, b, initial, written, full)
    ensures IsSuffix(written[|written| - Retained(|written|, limit, b)..], Chronicle(files, b))
  {
    KeptLength(files, limit, b, |written|, full);
    SuffixOfBoth(Retained(|written|, limit, b), Chronicle(files, b), initial, written);
  }

  lemma TracksPromise(files: Files, limit: nat, b: nat, existing: Files, written: Data, full: nat)
    requires Tracks(files, limit, b, LastBytes(existing, limit, b), written, full)
    ensures Promise(files, limit, b, existing, written)
  {
    TotalBound(files, limit, b);
    TracksRetained(files, limit, b, LastBytes(existing, limit, b), written, full);
  }

  class Log {
    const limit: nat
    const backups: nat
    var files: Files
    var size: nat
    ghost const existing: Files
    /** What opening left of the files it found. */
    ghost const initial: Data
    ghost var written: Data
    ghost var full: nat

    ghost predicate Valid()
      reads this
    {
      && limit > 0 && Tracks(files, limit, backups, initial, written, full)
      && size == |files[0]| && initial == LastBytes(existing, limit, backups)
    }

    /**
     Opening cuts every oversized file to its last `limit` bytes and creates the log if missing. No
     other file appears or disappears, and files beyond the backups are left alone.
     */
    constructor (existing: Files, limit: nat, backups: nat)
      requires limit > 0
      ensures Valid() && this.limit == limit && this.backups == backups && this.existing == existing && written == []
      ensures files.Keys == existing.Keys + {0}
      ensures forall i: nat :: i <= backups ==> Content(files, i) == Tail(Content(existing, i), limit)
      ensures forall i: nat :: i > backups ==> Held(files, i) == Held(existing, i)
    {
      var fs := CutAll(existing, limit, backups);
      fs := if 0 in fs then fs else fs[0 := []];
      this.limit, this.backups, files, size := limit, backups, fs, |fs[0]|;
      this.existing, initial, written, full := existing, LastBytes(existing, limit, backups), [], 0;
      TracksOpened(existing, fs, limit, backups);
    }

    /** The renames of a rotation, oldest first, then a fresh log. */
    method Rotate()
      requires 0 in files
      modifies this`files, this`size
      ensures Rotated(old(files), backups, files) && size == 0
    {
      ghost var before := files;
      if backups > 0 {
        var i := backups;
        while i > 1
          invariant 1 <= i <= backups && 0 in files
          invariant forall j: nat :: j < i || j > backups ==> Held(files, j) == Held(before, j)
          invariant forall j: nat :: i < j <= backups ==> Held(files, j) == Slot(before, backups, j)
          invariant i < backups ==> i !in files
          invariant i == backups ==> Held(files, i) == Held(before, i)
        {
          ghost var was := files;
          assert Held(was, i - 1) == Held(before, i - 1);
          if i - 1 in files {
            files := files[i := files[i - 1]] - {i - 1};
          }
          assert forall j: nat :: j != i && j != i - 1 ==> Held(files, j) == Held(was, j);
          assert Held(files, i) == Slot(before, backups, i);
          i := i - 1;
        }
        assert Held(files, 0) == Held(before, 0);
        ghost var was := files;
        files := files[1 := files[0]] - {0};
        assert forall j: nat :: j > 1 ==> Held(files, j) == Held(was, j);
      } else {
        files := files - {0};
      }
      files := files[0 := []];
      size := 0;
    }

    /** Rotation of a full log keeps everything promised. */
    method RotateFull()
      requires Valid() && size == limit
      modifies this`files, this`size, this`full
      ensures Valid() && size == 0
    {
      ghost var before := files;
      Rotate();
      TracksRotate(before, limit, backups, initial, written, full, files);
      assert Held(files, 0) == Slot(before, backups, 0);
      full := if full < backups then full + 1 else full;
    }

    method Append(chunk: Data)
      requires Valid() && size + |chunk| <= limit
      modifies this`files, this`size, this`written
      ensures Valid() && written == old(written) + chunk && size == old(size) + |chunk|
    {
      TracksAppend(files, limit, backups, initial, written, full, chunk);
      files := files[0 := files[0] + chunk];
      size := size + |chunk|;
      written := written + chunk;
    }

    /** One turn of the loop: rotate when full, then fill the current file. */
    method WriteSome(rest: Data) returns (n: nat)
      requires Valid() && rest != []
      modifies this`files, this`size, this`written, this`full
      ensures Valid() && 0 < n <= |rest| && written == old(written) + rest[..n]
    {
      if size >= limit {
        RotateFull();
      }
      n := if |rest| < limit - size then |rest| else limit - size;
      Append(rest[..n]);
    }

    /** `write`: the whole of the data, in order. */
    method Write(data: Data)
      requires Valid()
      modifies this`files, this`size, this`written, this`full
      ensures Valid() && written == old(written) + data
    {
      var i := 0;
      while i < |data|
        invariant 0 <= i <= |data| && Valid() && written == old(written) + data[..i]
      {
        var n := WriteSome(data[i..]);
        assert data[..i] + data[i..][..n] == data[..i + n];
        i := i + n;
      }
      assert data[..i] == data;
    }

    /** The bound and the retention, in every state a run of writes can reach. */
    lemma Holds()
      requires Valid()
      ensures Promise(files, limit, backups, existing, written)
    {
      TracksPromise(files, limit, backups, existing, written, full);
    }
  }

  /** The loop over the files of the constructor. */
  method CutAll(existing: Files, limit: nat, backups: nat) returns (fs: Files)
    ensures fs.Keys == existing.Keys
    ensures forall j: nat :: j in existing ==> fs[j] == if j <= backups then Tail(existing[j], limit) else existing[j]
  {
    fs := existing;
    var i := 0;
    while i <= backups
      invariant 0 <= i <= backups + 1 && fs.Keys == existing.Keys
      invariant forall j: nat :: j in existing ==> fs[j] == if j < i then Tail(existing[j], limit) else existing[j]
    {
      if i in fs && |fs[i]| > limit {
        fs := fs[i := fs[i][|fs[i]| - limit..]];
      }
      i := i + 1;
    }
  }
}
