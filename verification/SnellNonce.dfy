/** The AEAD nonce of a Snell v4 direction: a 12-byte little-endian counter
    that is stepped in place after every seal and every open. */
module SnellNonce {
  import opened Bytes

  const NONCE_SIZE := 12

  /** The nonce every direction starts from. */
  const ZERO_NONCE: Bytes := [0, 0, 0, 0, 0, 0, 0, 0, 0, 0, 0, 0]

  function LeValue(s: Bytes): nat {
    if s == [] then 0 else s[0] + 256 * LeValue(s[1..])
  }

  function LeBytes(len: nat, v: nat): (s: Bytes)
    ensures |s| == len
    decreases len
  {
    if len == 0 then [] else [v % 256] + LeBytes(len - 1, v / 256)
  }

  /** The nonce after `k` steps from the all-zero nonce. */
  function NonceAt(k: nat): (s: Bytes)
    ensures |s| == NONCE_SIZE
  {
    LeBytes(|ZERO_NONCE|, k)
  }

  /** One carry-propagating step; an all-ones nonce wraps to zero. */
  function Inc(s: Bytes): (r: Bytes)
    ensures |r| == |s|
  {
    if s == [] then []
    else if s[0] == 255 then [0] + Inc(s[1..])
    else [s[0] as int + 1] + s[1..]
  }

  /** A carry runs through a prefix of 255s and stops at the first byte below 255. */
  lemma {:induction false} IncStops(s: Bytes, i: nat)
    requires i <= |s| && forall j :: 0 <= j < i ==> s[j] == 255
    requires i < |s| ==> s[i] < 255
    ensures i < |s| ==> Inc(s) == Repeat(i, 0) + [s[i] as int + 1] + s[i + 1..]
    ensures i == |s| ==> Inc(s) == Repeat(i, 0)
  {
    if i > 0 {
      IncStops(s[1..], i - 1);
    }
  }

  method IncNonce(n: array<byte>)
    modifies n
    ensures n[..] == Inc(old(n[..]))
  {
    var i := 0;
    ghost var was := n[..];
    while i < n.Length
      invariant 0 <= i <= n.Length
      invariant forall j :: 0 <= j < i ==> n[j] == 0 && was[j] == 255
      invariant n[i..] == was[i..]
    {
      assert n[i] == was[i..][0];
      n[i] := (n[i] as int + 1) % 256;
      if n[i] != 0 {
        IncStops(was, i);
        assert n[i + 1..] == was[i..][1..];
        return;
      }
      assert n[i + 1..] == was[i..][1..];
      i := i + 1;
    }
    IncStops(was, i);
  }

  /** Stepping the form of `v` gives the form of `v + 1`. */
  lemma {:induction false} IncIsSuccessor(len: nat, v: nat)
    ensures Inc(LeBytes(len, v)) == LeBytes(len, v + 1)
    decreases len
  {
    if len > 0 {
      assert LeBytes(len, v)[1..] == LeBytes(len - 1, v / 256);
      if v % 256 == 255 {
        IncIsSuccessor(len - 1, v / 256);
      }
    }
  }

  function IncTimes(s: Bytes, k: nat): Bytes {
    if k == 0 then s else Inc(IncTimes(s, k - 1))
  }

  /** What is left of `v` once its low `len` bytes are taken off. */
  function High(len: nat, v: nat): nat
    decreases len
  {
    if len == 0 then v else High(len - 1, v / 256)
  }

  /** `v` is its low `len` bytes plus a multiple of `256^len`. */
  lemma {:induction false} LowAndHigh(len: nat, v: nat)
    ensures v == LeValue(LeBytes(len, v)) + Pow256(len) * High(len, v)
    ensures LeValue(LeBytes(len, v)) < Pow256(len)
    decreases len
  {
    if len > 0 {
      LowAndHigh(len - 1, v / 256);
      assert LeBytes(len, v)[1..] == LeBytes(len - 1, v / 256);
      MulAssoc(256, Pow256(len - 1), High(len - 1, v / 256));
    }
  }

  lemma MulAssoc(a: nat, b: nat, c: nat)
    ensures a * (b * c) == (a * b) * c
  {
  }

  lemma {:induction false} ZeroNonce(len: nat)
    ensures LeBytes(len, 0) == Repeat(len, 0)
  {
    if len > 0 {
      ZeroNonce(len - 1);
    }
  }

  /** After `k` increments an all-zero nonce of `len` bytes is the little-endian form of `k`. */
  lemma {:induction false} NonceAfter(len: nat, k: nat)
    ensures IncTimes(Repeat(len, 0), k) == LeBytes(len, k)
  {
    if k == 0 {
      ZeroNonce(len);
    } else {
      NonceAfter(len, k - 1);
      IncIsSuccessor(len, k - 1);
    }
  }

  lemma NoMultipleBetween(p: nat, a: nat, b: nat)
    requires 0 < p
    ensures !(p * a < p * b < p * a + p)
  {
    assert b > a ==> p * b >= p * (a + 1);
    assert b <= a ==> p * b <= p * a;
  }

  /** Counters less than `256^len` apart never give the same nonce. */
  lemma NonceDistinct(len: nat, i: nat, j: nat)
    requires i < j < i + Pow256(len)
    ensures LeBytes(len, i) != LeBytes(len, j)
  {
    LowAndHigh(len, i);
    LowAndHigh(len, j);
    NoMultipleBetween(Pow256(len), High(len, i), High(len, j));
  }

  /** No two of 2^96 consecutive nonces are the same. */
  lemma NoncesDiffer(i: nat, j: nat)
    requires i < j < i + Pow256(|ZERO_NONCE|)
    ensures NonceAt(i) != NonceAt(j)
  {
    hide LeBytes, Pow256;
    NonceDistinct(|ZERO_NONCE|, i, j);
  }

  lemma NonceStep(k: nat)
    ensures Inc(NonceAt(k)) == NonceAt(k + 1)
  {
    hide Inc, LeBytes;
    IncIsSuccessor(|ZERO_NONCE|, k);
  }
}
