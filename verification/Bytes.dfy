/** Bytes, big-endian integers and the failure types shared by every codec. */
module Bytes {
  type byte = x: int | 0 <= x < 256

  type Bytes = seq<byte>

  datatype Option<+T> = None | Some(value: T)

  /** The first twelve bytes of an IPv4 address mapped into IPv6. */
  const V4_IN_V6: Bytes := [0, 0, 0, 0, 0, 0, 0, 0, 0, 0, 0xFF, 0xFF]

  function Min(a: int, b: int): int {
    if a < b then a else b
  }

  /** binary.BigEndian.PutUint16. */
  function U16(v: nat): Bytes
    requires v < 0x1_0000
  {
    [v / 256, v % 256]
  }

  /** binary.BigEndian.Uint16 at offset `off`. */
  function GetU16(b: Bytes, off: nat): (v: nat)
    requires off + 2 <= |b|
    ensures v < 0x1_0000
  {
    b[off] as int * 256 + b[off + 1] as int
  }

  lemma U16RoundTrip(pre: Bytes, v: nat, post: Bytes)
    requires v < 0x1_0000
    ensures GetU16(pre + U16(v) + post, |pre|) == v
  {
    var s := pre + U16(v) + post;
    assert s[|pre|] == v / 256 && s[|pre| + 1] == v % 256;
  }

  /** A byte copied `n` times. */
  function Repeat(n: nat, b: byte): (r: Bytes)
    ensures |r| == n
  {
    seq(n, _ => b)
  }

  /** The first `|a|` bytes of `a + b` are `a` and the rest is `b`. */
  lemma Split(a: Bytes, b: Bytes)
    ensures (a + b)[..|a|] == a && (a + b)[|a|..] == b
  {
  }

  lemma Assoc<T>(a: seq<T>, b: seq<T>, c: seq<T>)
    ensures (a + b) + c == a + (b + c)
  {
  }

  function Pow2(n: nat): (p: nat)
    ensures p > 0
  {
    if n == 0 then 1 else 2 * Pow2(n - 1)
  }

  function Pow256(n: nat): (p: nat)
    ensures p > 0
  {
    if n == 0 then 1 else 256 * Pow256(n - 1)
  }

  lemma DivDiv(v: nat, p: nat)
    requires p > 0
    ensures v / (2 * p) == v / 2 / p
  {
    var q, r := v / (2 * p), v % (2 * p);
    assert v == 2 * p * q + r;
    assert v / 2 == p * q + r / 2;
    assert r / 2 < p;
    DivUnique(v / 2, p, q, r / 2);
  }

  lemma DivUnique(v: nat, p: nat, q: nat, r: nat)
    requires v == p * q + r && r < p
    ensures v / p == q
  {
    var d: int := v / p - q;
    assert p * d == r - v % p;
  }

  /** Byte strings joined. */
  function Flatten(bs: seq<Bytes>): Bytes {
    if bs == [] then [] else bs[0] + Flatten(bs[1..])
  }

  lemma {:induction false} FlattenAppend(bs: seq<Bytes>, b: Bytes)
    ensures Flatten(bs + [b]) == Flatten(bs) + b
  {
    if bs == [] {
      assert bs + [b] == [b];
      assert Flatten([b][1..]) == [];
    } else {
      assert (bs + [b])[1..] == bs[1..] + [b];
      FlattenAppend(bs[1..], b);
    }
  }

  /** strings.Split on one separator. */
  function SplitOn<T(==)>(s: seq<T>, sep: T): (r: seq<seq<T>>)
    ensures r != []
  {
    if s == [] then [[]]
    else
      var more := SplitOn(s[1..], sep);
      if s[0] == sep then [[]] + more else [[s[0]] + more[0]] + more[1..]
  }

  /** strings.TrimSuffix of one character. */
  function TrimLast<T(==)>(s: seq<T>, c: T): seq<T> {
    if s != [] && s[|s| - 1] == c then s[..|s| - 1] else s
  }

  /** Dropping, then taking or dropping more. */
  lemma SliceSlice<T>(s: seq<T>, a: nat, n: nat)
    requires a + n <= |s|
    ensures s[a..][..n] == s[a..a + n] && s[a..][n..] == s[a + n..]
  {
  }

  /** What stands between `pre` and `post`. */
  lemma Middle<T>(pre: seq<T>, x: seq<T>, post: seq<T>)
    ensures var s := pre + x + post;
      s[|pre|..|pre| + |x|] == x && s[|pre| + |x|..] == post
  {
  }
}
