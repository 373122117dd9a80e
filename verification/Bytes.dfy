/** Byte strings: big-endian integers, UTF-8, varints and length-prefixed fields. */
module Bytes {
  import opened Integers

  type Byte = b: int | 0 <= b < 256
  type Bytes = seq<Byte>

  function Pow256(w: nat): nat {
    if w == 0 then 1 else 256 * Pow256(w - 1)
  }

  /** `to_be_bytes` of the low w bytes of n. */
  function BigEndian(n: nat, w: nat): (b: Bytes)
    ensures |b| == w
    decreases w
  {
    if w == 0 then [] else BigEndian(n / 256, w - 1) + [n % 256]
  }

  lemma {:induction false} BigEndianInjective(m: nat, n: nat, w: nat)
    requires m < Pow256(w) && n < Pow256(w) && BigEndian(m, w) == BigEndian(n, w)
    ensures m == n
    decreases w
  {
    if w > 0 {
      var a, b := BigEndian(m, w), BigEndian(n, w);
      assert a[..w - 1] == BigEndian(m / 256, w - 1) && b[..w - 1] == BigEndian(n / 256, w - 1);
      assert a[w - 1] == m % 256 && b[w - 1] == n % 256;
      BigEndianInjective(m / 256, n / 256, w - 1);
    }
  }

  /** One length-prefixed field; the length is cut to w bytes as the cast does. */
  function Field(v: Bytes, w: nat): Bytes {
    BigEndian(|v|, w) + v
  }

  function Fields(vs: seq<Bytes>, w: nat): Bytes {
    if vs == [] then [] else Field(vs[0], w) + Fields(vs[1..], w)
  }

  lemma FieldPrefix(v: Bytes, u: Bytes, w: nat, x: Bytes, y: Bytes)
    requires |v| < Pow256(w) && |u| < Pow256(w) && Field(v, w) + x == Field(u, w) + y
    ensures v == u && x == y
  {
    var f, g := Field(v, w) + x, Field(u, w) + y;
    assert f[..w] == BigEndian(|v|, w) && g[..w] == BigEndian(|u|, w);
    BigEndianInjective(|v|, |u|, w);
    assert f[w..w + |v|] == v && g[w..w + |u|] == u;
    assert f[w + |v|..] == x && g[w + |u|..] == y;
  }

  /** Length prefixes make a list of fields readable back from its concatenation. */
  lemma {:induction false} FieldsInjective(vs: seq<Bytes>, us: seq<Bytes>, w: nat, x: Bytes, y: Bytes)
    requires |vs| == |us|
    requires forall i :: 0 <= i < |vs| ==> |vs[i]| < Pow256(w) && |us[i]| < Pow256(w)
    requires Fields(vs, w) + x == Fields(us, w) + y
    ensures vs == us && x == y
    decreases |vs|
  {
    if vs != [] {
      var vx, uy := Fields(vs[1..], w) + x, Fields(us[1..], w) + y;
      assert Fields(vs, w) + x == Field(vs[0], w) + vx && Fields(us, w) + y == Field(us[0], w) + uy;
      FieldPrefix(vs[0], us[0], w, vx, uy);
      FieldsInjective(vs[1..], us[1..], w, x, y);
      assert vs == [vs[0]] + vs[1..] && us == [us[0]] + us[1..];
    } else {
      assert Fields(vs, w) + x == x && Fields(us, w) + y == y;
    }
  }

  lemma Regrouped(a: Bytes, b: Bytes, c: Bytes)
    ensures a + (b + c) == a + b + c
  {
  }

  lemma {:induction false} FieldsSnoc(vs: seq<Bytes>, v: Bytes, w: nat)
    ensures Fields(vs + [v], w) == Fields(vs, w) + Field(v, w)
    decreases |vs|
  {
    if vs == [] {
      assert [v][1..] == [] && Fields([v], w) == Field(v, w) + [];
    } else {
      var first, rest := Field(vs[0], w), vs[1..];
      FieldsSnoc(rest, v, w);
      assert (vs + [v])[0] == vs[0] && (vs + [v])[1..] == rest + [v];
      Regrouped(first, Fields(rest, w), Field(v, w));
    }
  }

  lemma OneMoreField(buffer: Bytes, vs: seq<Bytes>, v: Bytes, w: nat)
    ensures buffer + Fields(vs, w) + BigEndian(|v|, w) + v == buffer + Fields(vs + [v], w)
  {
    FieldsSnoc(vs, v, w);
    var a, b := Fields(vs, w), BigEndian(|v|, w);
    assert buffer + a + b + v == buffer + (a + (b + v));
  }

  /** The loop that feeds values into a buffer or hasher, each behind its length. */
  method AppendFields(buffer: Bytes, values: seq<Bytes>, w: nat) returns (frame: Bytes)
    ensures frame == buffer + Fields(values, w)
  {
    frame := buffer;
    var i := 0;
    while i < |values|
      invariant 0 <= i <= |values| && frame == buffer + Fields(values[..i], w)
    {
      OneMoreField(buffer, values[..i], values[i], w);
      assert values[..i + 1] == values[..i] + [values[i]];
      frame := frame + BigEndian(|values[i]|, w);
      frame := frame + values[i];
      i := i + 1;
    }
    assert values[..i] == values;
  }

  /** All the hashed values of a record with a trailing payload, in order. */
  method FeedHasher(names: seq<Bytes>, payload: Bytes, w: nat) returns (fed: Bytes)
    ensures fed == Fields(names, w) + Field(payload, w)
  {
    fed := AppendFields([], names, w);
    fed := fed + (BigEndian(|payload|, w) + payload);
  }

  const TWO_64: int := 0x1_0000_0000_0000_0000

  /** i64 in two's complement. */
  function TwosComplement(z: I64): nat {
    if z < 0 then z + TWO_64 else z
  }

  lemma PowersOf256()
    ensures Pow256(4) == 0x1_0000_0000 && Pow256(8) == TWO_64
  {
    assert Pow256(4) == 0x1_0000_0000;
    assert Pow256(8) == 256 * 256 * 256 * 256 * Pow256(4);
  }

  lemma TwosComplementBytes(y: I64, z: I64)
    requires BigEndian(TwosComplement(y), 8) == BigEndian(TwosComplement(z), 8)
    ensures y == z
  {
    PowersOf256();
    BigEndianInjective(TwosComplement(y), TwosComplement(z), 8);
  }

  function Utf8Char(c: char): (b: Bytes)
    ensures 1 <= |b| <= 4
  {
    var n := c as int;
    var q1, r0 := n / 64, n % 64;
    var q2, r1 := q1 / 64, q1 % 64;
    var q3, r2 := q2 / 64, q2 % 64;
    if n < 0x80 then [n]
    else if n < 0x800 then [0xC0 + q1, 0x80 + r0]
    else if n < 0x10000 then [0xE0 + q2, 0x80 + r1, 0x80 + r0]
    else [0xF0 + q3, 0x80 + r2, 0x80 + r1, 0x80 + r0]
  }

  function Utf8(s: string): (b: Bytes)
    ensures |b| >= |s|
  {
    if s == [] then [] else Utf8Char(s[0]) + Utf8(s[1..])
  }

  /** The first byte tells how many follow. */
  lemma Utf8CharLength(c: char, d: char)
    requires Utf8Char(c)[0] == Utf8Char(d)[0]
    ensures |Utf8Char(c)| == |Utf8Char(d)|
  {
  }

  /** The code point a character's bytes spell. */
  function CodePoint(b: seq<int>): int
    requires 1 <= |b| <= 4
  {
    if |b| == 1 then b[0]
    else if |b| == 2 then (b[0] - 0xC0) * 64 + (b[1] - 0x80)
    else if |b| == 3 then (b[0] - 0xE0) * 4096 + (b[1] - 0x80) * 64 + (b[2] - 0x80)
    else (b[0] - 0xF0) * 262144 + (b[1] - 0x80) * 4096 + (b[2] - 0x80) * 64 + (b[3] - 0x80)
  }

  lemma Utf8CharReads(c: char)
    ensures CodePoint(Utf8Char(c)) == c as int
  {
    var n := c as int;
    assert n == n / 64 * 64 + n % 64;
    var q1 := n / 64;
    assert q1 == q1 / 64 * 64 + q1 % 64;
    var q2 := q1 / 64;
    assert q2 == q2 / 64 * 64 + q2 % 64;
  }

  /** No character's bytes begin another's. */
  lemma Utf8CharPrefix(c: char, d: char, x: Bytes, y: Bytes)
    requires Utf8Char(c) + x == Utf8Char(d) + y
    ensures c == d && x == y
  {
    var f, g := Utf8Char(c) + x, Utf8Char(d) + y;
    assert Utf8Char(c)[0] == f[0] == g[0] == Utf8Char(d)[0];
    Utf8CharLength(c, d);
    var n := |Utf8Char(c)|;
    assert Utf8Char(c) == f[..n] && Utf8Char(d) == g[..n];
    Utf8CharReads(c);
    Utf8CharReads(d);
    assert x == f[n..] && y == g[n..];
  }

  lemma {:induction false} Utf8Injective(s: string, t: string)
    requires Utf8(s) == Utf8(t)
    ensures s == t
    decreases |s|
  {
    if s != [] && t != [] {
      Utf8CharPrefix(s[0], t[0], Utf8(s[1..]), Utf8(t[1..]));
      Utf8Injective(s[1..], t[1..]);
      assert s == [s[0]] + s[1..] && t == [t[0]] + t[1..];
    }
  }

  /** Protocol Buffers base-128 varint. */
  function Varint(n: nat): Bytes {
    if n < 128 then [n] else [128 + n % 128] + Varint(n / 128)
  }

  function Pow128(k: nat): nat {
    if k == 0 then 1 else 128 * Pow128(k - 1)
  }

  lemma {:induction false} VarintLength(n: nat, k: nat)
    requires k > 0 && n < Pow128(k)
    ensures |Varint(n)| <= k
    decreases k
  {
    if n >= 128 {
      VarintLength(n / 128, k - 1);
    }
  }
}
