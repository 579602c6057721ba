/** Frame padding: the byte swap that interleaves padding with ciphertext, and
    the construction of padding with a chosen number of one bits. */
module SnellPadding {
  import opened Bytes

  // ---- swapping padding with ciphertext ----

  /** Even positions below both lengths are exchanged; this is what is left in `own`. */
  function Swapped(own: Bytes, other: Bytes): (r: Bytes)
    ensures |r| == |own|
  {
    seq(|own|, i requires 0 <= i < |own| =>
      if i < |other| && i % 2 == 0 then other[i] else own[i])
  }

  /** Swapping twice restores both sides. */
  lemma SwapTwice(p: Bytes, c: Bytes)
    ensures Swapped(Swapped(p, c), Swapped(c, p)) == p
  {
  }

  /** Padding and ciphertext joined as they lie in a frame, padding first. */
  function Interleaved(p: Bytes, c: Bytes): (r: Bytes)
    ensures |r| == |p| + |c|
  {
    Swapped(p, c) + Swapped(c, p)
  }

  /** Where every byte of a frame comes from: even positions below both lengths are exchanged, every other byte
      stays where it was. */
  lemma InterleavedAt(p: Bytes, c: Bytes)
    ensures var f := Interleaved(p, c);
      && (forall i :: 0 <= i < |p| ==> f[i] == if i % 2 == 0 && i < |c| then c[i] else p[i])
      && (forall i :: 0 <= i < |c| ==> f[|p| + i] == if i % 2 == 0 && i < |p| then p[i] else c[i])
  {
  }

  lemma InterleavedTwice(p: Bytes, c: Bytes)
    ensures Interleaved(Interleaved(p, c)[..|p|], Interleaved(p, c)[|p|..]) == p + c
  {
    assert Interleaved(p, c)[..|p|] == Swapped(p, c);
    assert Interleaved(p, c)[|p|..] == Swapped(c, p);
    SwapTwice(p, c);
    SwapTwice(c, p);
  }

  /** Position `k` of `w` once the even positions below `i` are exchanged across `mid`. */
  function SwapAt(w: Bytes, mid: nat, i: nat, k: nat): byte
    requires mid <= |w| && k < |w|
  {
    if k < mid then
      if k < i && mid + k < |w| && k % 2 == 0 then w[mid + k] else w[k]
    else
      if k - mid < i && k - mid < mid && (k - mid) % 2 == 0 then w[k - mid] else w[k]
  }

  ghost predicate SwappedBelow(f: Bytes, w: Bytes, mid: nat, i: nat)
    requires mid <= |w|
  {
    |f| == |w| && forall k :: 0 <= k < |w| ==> f[k] == SwapAt(w, mid, i, k)
  }

  lemma SwapStep(f: Bytes, w: Bytes, mid: nat, i: nat)
    requires i < mid && mid + i < |w| && i % 2 == 0
    requires SwappedBelow(f, w, mid, i)
    ensures SwappedBelow(f[i := f[mid + i]][mid + i := f[i]], w, mid, i + 2)
  {
  }

  lemma SwapDone(f: Bytes, w: Bytes, mid: nat, i: nat)
    requires mid <= |w| && (i >= mid || mid + i >= |w|)
    requires SwappedBelow(f, w, mid, i)
    ensures f == Interleaved(w[..mid], w[mid..])
  {
    var r := Interleaved(w[..mid], w[mid..]);
    forall k | 0 <= k < |w|
      ensures r[k] == SwapAt(w, mid, i, k)
    {
    }
  }

  lemma SwapMeans(f: Bytes, w: Bytes, mid: nat)
    requires mid <= |w| && f == Interleaved(w[..mid], w[mid..])
    ensures forall i :: 0 <= i < mid ==> f[i] == if i % 2 == 0 && mid + i < |w| then w[mid + i] else w[i]
    ensures forall i :: mid <= i < |w| ==> f[i] == if (i - mid) % 2 == 0 && i - mid < mid then w[i - mid] else w[i]
  {
    hide Interleaved;
    var p, c := w[..mid], w[mid..];
    InterleavedAt(p, c);
    forall i | mid <= i < |w|
      ensures f[i] == if (i - mid) % 2 == 0 && i - mid < mid then w[i - mid] else w[i]
    {
      assert f[|p| + (i - mid)] == f[i];
    }
  }

  /** swapPadding(frame[:mid], frame[mid:]), in place. */
  method SwapPadding(frame: array<byte>, mid: nat)
    requires mid <= frame.Length
    modifies frame
    ensures frame[..] == Interleaved(old(frame[..mid]), old(frame[mid..]))
    ensures var w := old(frame[..]);
      && (forall i :: 0 <= i < mid ==> frame[i] == if i % 2 == 0 && mid + i < |w| then w[mid + i] else w[i])
      && (forall i :: mid <= i < |w| ==> frame[i] == if (i - mid) % 2 == 0 && i - mid < mid then w[i - mid] else w[i])
  {
    hide Interleaved;
    var limit := mid;
    if frame.Length - mid < limit {
      limit := frame.Length - mid;
    }
    ghost var w := frame[..];
    var i := 0;
    while i < limit
      invariant 0 <= i <= limit + 1 && i % 2 == 0
      invariant SwappedBelow(frame[..], w, mid, i)
    {
      SwapStep(frame[..], w, mid, i);
      frame[i], frame[mid + i] := frame[mid + i], frame[i];
      i := i + 2;
    }
    SwapDone(frame[..], w, mid, i);
    SwapMeans(frame[..], w, mid);
    assert w[..mid] == old(frame[..mid]) && w[mid..] == old(frame[mid..]);
  }

  // ---- padding with a chosen number of one bits ----

  /** math/bits.OnesCount8, summed over a byte string. */
  function OnesIn(b: nat): nat {
    if b == 0 then 0 else b % 2 + OnesIn(b / 2)
  }

  function Ones(s: Bytes): nat {
    if s == [] then 0 else OnesIn(s[0]) + Ones(s[1..])
  }

  type bit = x: int | 0 <= x < 2

  function Sum(s: seq<bit>): nat {
    if s == [] then 0 else s[0] as int + Sum(s[1..])
  }

  lemma {:induction false} SumConcat(a: seq<bit>, b: seq<bit>)
    ensures Sum(a + b) == Sum(a) + Sum(b)
  {
    if a == [] {
      assert a + b == b;
    } else {
      assert (a + b)[1..] == a[1..] + b;
      SumConcat(a[1..], b);
    }
  }

  lemma SumUpdate(s: seq<bit>, i: nat, v: bit)
    requires i < |s|
    ensures Sum(s[i := v]) == Sum(s) - s[i] as int + v as int
  {
    assert s == s[..i] + ([s[i]] + s[i + 1..]);
    assert s[i := v] == s[..i] + ([v] + s[i + 1..]);
    SumConcat(s[..i], [s[i]] + s[i + 1..]);
    SumConcat(s[..i], [v] + s[i + 1..]);
  }

  lemma SumSwap(s: seq<bit>, i: nat, j: nat)
    requires i < |s| && j < |s|
    ensures Sum(s[i := s[j]][j := s[i]]) == Sum(s)
  {
    SumUpdate(s, i, s[j]);
    SumUpdate(s[i := s[j]], j, s[i]);
  }

  /** Eight bits, least significant first, as one byte. */
  function BitsValue(s: seq<bit>): (v: nat)
    ensures v < Pow2(|s|)
  {
    if s == [] then 0 else s[0] as int + 2 * BitsValue(s[1..])
  }

  lemma HalfOf(b: bit, v: nat)
    ensures (b as int + 2 * v) % 2 == b && (b as int + 2 * v) / 2 == v
  {
  }

  lemma {:induction false} OnesOfBits(s: seq<bit>)
    ensures OnesIn(BitsValue(s)) == Sum(s)
  {
    if s != [] {
      OnesOfBits(s[1..]);
      HalfOf(s[0], BitsValue(s[1..]));
    }
  }

  /** Setting a bit above all the ones already set: `b |= 1 << k`. */
  lemma {:induction false} BitsValueAppend(s: seq<bit>, b: bit)
    ensures BitsValue(s + [b]) == BitsValue(s) + b * Pow2(|s|)
  {
    if s == [] {
      assert s + [b] == [b];
      assert [b][1..] == [];
    } else {
      assert (s + [b])[1..] == s[1..] + [b];
      BitsValueAppend(s[1..], b);
    }
  }

  /** `v | 1 << k`. */
  function SetBit(v: nat, k: nat): nat {
    if v / Pow2(k) % 2 == 1 then v else v + Pow2(k)
  }

  /** Byte `b` of the packed string once the first `i` bits are packed. */
  function PackedAt(bits: seq<bit>, i: nat, b: nat): nat
    requires i <= |bits|
  {
    BitsValue(bits[Min(8 * b, i)..Min(8 * b + 8, i)])
  }

  lemma PackedIsByte(bits: seq<bit>, i: nat, b: nat)
    requires i <= |bits|
    ensures PackedAt(bits, i, b) < 256
  {
    Pow2Within(Min(8 * b + 8, i) - Min(8 * b, i));
  }

  lemma {:induction false} Pow2Within(n: nat)
    requires n <= 8
    ensures Pow2(n) <= 256
    decreases 8 - n
  {
    if n < 8 {
      Pow2Within(n + 1);
    } else {
      assert Pow2(8) == 2 * Pow2(7) && Pow2(7) == 2 * Pow2(6) && Pow2(6) == 2 * Pow2(5) && Pow2(5) == 2 * Pow2(4);
    }
  }

  /** Packing one more bit leaves the other bytes alone. */
  lemma PackOther(bits: seq<bit>, i: nat, b: nat)
    requires i < |bits| && b != i / 8
    ensures PackedAt(bits, i + 1, b) == PackedAt(bits, i, b)
  {
    hide BitsValue;
    if b < i / 8 {
      assert 8 * b + 8 <= i;
    } else {
      assert i + 1 <= 8 * b;
      assert bits[i..i] == [] && bits[i + 1..i + 1] == [];
    }
  }

  /** In its own byte it comes above the bits already there. */
  lemma PackOwn(bits: seq<bit>, i: nat)
    requires i < |bits|
    ensures PackedAt(bits, i + 1, i / 8) == PackedAt(bits, i, i / 8) + bits[i] * Pow2(i % 8)
    ensures PackedAt(bits, i, i / 8) < Pow2(i % 8)
  {
    hide BitsValue, Pow2;
    var b := i / 8;
    var done := bits[8 * b..i];
    assert |done| == i % 8;
    assert Min(8 * b, i) == 8 * b && Min(8 * b + 8, i) == i;
    assert Min(8 * b, i + 1) == 8 * b && Min(8 * b + 8, i + 1) == i + 1;
    assert bits[8 * b..i + 1] == done + [bits[i]];
    BitsValueAppend(done, bits[i]);
  }

  lemma PackStep(bits: seq<bit>, i: nat)
    requires i < |bits|
    ensures var b := i / 8; var was := PackedAt(bits, i, b);
      PackedAt(bits, i + 1, b) == if bits[i] == 1 then SetBit(was, i % 8) else was
  {
    hide PackedAt, Pow2;
    PackOwn(bits, i);
    BelowDivides(PackedAt(bits, i, i / 8), Pow2(i % 8));
  }

  lemma BelowDivides(v: nat, p: nat)
    requires v < p
    ensures v / p == 0
  {
  }

  function Packed(bits: seq<bit>, n: nat): (r: Bytes)
    requires |bits| == 8 * n
    ensures |r| == n
  {
    seq(n, b requires 0 <= b < n => PackedIsByte(bits, |bits|, b); PackedAt(bits, |bits|, b))
  }

  /** Bit `j` of byte `b` is the bit at `8 * b + j`: the least significant bit comes first. */
  lemma PackedBit(bits: seq<bit>, n: nat, b: nat, j: nat)
    requires |bits| == 8 * n && b < n && j < 8
    ensures Packed(bits, n)[b] as int / Pow2(j) % 2 == bits[8 * b + j]
  {
    var eight := bits[8 * b..8 * b + 8];
    BitOfValue(eight, j);
    assert Packed(bits, n)[b] == BitsValue(eight);
  }

  lemma {:induction false} BitOfValue(s: seq<bit>, j: nat)
    requires j < |s|
    ensures BitsValue(s) / Pow2(j) % 2 == s[j]
  {
    HalfOf(s[0], BitsValue(s[1..]));
    if j > 0 {
      BitOfValue(s[1..], j - 1);
      DivDiv(BitsValue(s), Pow2(j - 1));
    }
  }

  lemma {:induction false} OnesPacked(bits: seq<bit>, n: nat)
    requires |bits| == 8 * n
    ensures Ones(Packed(bits, n)) == Sum(bits)
  {
    if n > 0 {
      var rest := bits[8..];
      OnesPacked(rest, n - 1);
      forall b | 0 <= b < n - 1
        ensures Packed(bits, n)[1..][b] == Packed(rest, n - 1)[b]
      {
        assert bits[8 * (b + 1)..8 * (b + 1) + 8] == rest[8 * b..8 * b + 8];
      }
      assert Packed(bits, n)[1..] == Packed(rest, n - 1);
      OnesOfBits(bits[0..8]);
      SumConcat(bits[..8], rest);
      assert bits == bits[..8] + rest && bits[0..8] == bits[..8];
    }
  }

  lemma {:induction false} SumZeros(s: seq<bit>)
    requires forall k :: 0 <= k < |s| ==> s[k] == 0
    ensures Sum(s) == 0
  {
    if s != [] {
      SumZeros(s[1..]);
    }
  }

  /** The bits `bitCountPadding` shuffles: `oneBits` ones, then zeros. */
  method FillOnes(total: nat, oneBits: nat) returns (bits: array<bit>)
    requires oneBits <= total
    ensures fresh(bits) && bits.Length == total && Sum(bits[..]) == oneBits
  {
    bits := new bit[total](_ => 0);
    SumZeros(bits[..]);
    var i := 0;
    while i < oneBits
      invariant 0 <= i <= oneBits
      invariant forall k :: i <= k < total ==> bits[k] == 0
      invariant Sum(bits[..]) == i
    {
      SumUpdate(bits[..], i, 1);
      ghost var was := bits[..];
      bits[i] := 1;
      assert bits[..] == was[i := 1];
      i := i + 1;
    }
  }

  /** The shuffle; `choose(i)` is the draw below `i + 1`, None when the random source fails. */
  method Shuffle(bits: array<bit>, choose: nat -> Option<nat>) returns (ok: bool)
    modifies bits
    ensures Sum(bits[..]) == Sum(old(bits[..]))
    ensures ok <==> forall i :: 0 < i < bits.Length ==> choose(i).Some?
  {
    var i := bits.Length - 1;
    while i > 0
      invariant -1 <= i < bits.Length
      invariant Sum(bits[..]) == Sum(old(bits[..]))
      invariant forall k :: 0 < k && i < k < bits.Length ==> choose(k).Some?
    {
      var draw := choose(i);
      if draw.None? {
        return false;
      }
      var j := draw.value % (i + 1);
      ghost var was := bits[..];
      SumSwap(was, i, j);
      bits[i], bits[j] := bits[j], bits[i];
      assert bits[..] == was[i := was[j]][j := was[i]];
      i := i - 1;
    }
    return true;
  }

  lemma NothingPacked(bits: seq<bit>, b: nat)
    ensures PackedAt(bits, 0, b) == 0
  {
  }

  method Pack(bits: array<bit>, length: nat) returns (out: array<byte>)
    requires bits.Length == 8 * length
    ensures fresh(out) && out[..] == Packed(bits[..], length)
  {
    hide PackedAt, SetBit;
    out := new byte[length](_ => 0);
    ghost var s := bits[..];
    forall b | 0 <= b < length
      ensures PackedAt(s, 0, b) == 0
    {
      NothingPacked(s, b);
    }
    var i := 0;
    while i < bits.Length
      invariant 0 <= i <= bits.Length == |s| && bits[..] == s && out.Length == length
      invariant forall b :: 0 <= b < length ==> out[b] == PackedAt(s, i, b)
    {
      forall b | 0 <= b < length
        ensures b != i / 8 ==> PackedAt(s, i + 1, b) == PackedAt(s, i, b)
      {
        if b != i / 8 {
          PackOther(s, i, b);
        }
      }
      PackStep(s, i);
      if bits[i] == 1 {
        PackedIsByte(s, i + 1, i / 8);
        out[i / 8] := SetBit(out[i / 8], i % 8);
      }
      i := i + 1;
    }
  }

  /** Padding of `length` bytes holding exactly `oneBits` ones, whatever the random draws. */
  method BitCountPadding(length: nat, oneBits: nat, choose: nat -> Option<nat>) returns (r: Option<Bytes>)
    requires oneBits <= 8 * length
    ensures r.Some? ==> |r.value| == length && Ones(r.value) == oneBits
    ensures r.Some? <==> forall i :: 0 < i < 8 * length ==> choose(i).Some?
  {
    var bits := FillOnes(8 * length, oneBits);
    var ok := Shuffle(bits, choose);
    if !ok {
      return None;
    }
    var out := Pack(bits, length);
    OnesPacked(bits[..], length);
    return Some(out[..]);
  }

  // ---- makePadding, with real arithmetic in place of floating point ----

  /** One random draw of `makePadding`: the unit real, the shuffle and raw bytes; None is a failed read. */
  datatype PadDraw = PadDraw(unit: Option<real>, choose: nat -> Option<nat>, raw: Option<nat -> byte>) {
    predicate Valid() {
      unit.Some? ==> 0.0 <= unit.value < 1.0
    }

    /** The random source answers every read. */
    ghost predicate Available() {
      unit.Some? && raw.Some? && forall i: nat :: choose(i).Some?
    }
  }

  function RawBytes(n: nat, raw: nat -> byte): (r: Bytes)
    ensures |r| == n
  {
    seq(n, (i: nat) => raw(i))
  }

  function RandomBytes(n: nat, draw: PadDraw): (r: Option<Bytes>)
    ensures r.Some? ==> |r.value| == n
  {
    if draw.raw.None? then None else Some(RawBytes(n, draw.raw.value))
  }

  /** Go's conversion of a float to int: truncation toward zero. */
  function Truncate(x: real): int {
    if x < 0.0 then -((-x).Floor) else x.Floor
  }

  /** Ones of the longest prefix whose length is a multiple of four, and the zeros `makePadding` pairs with them. */
  function CountedOnes(c: Bytes): nat {
    Ones(c[..|c| - |c| % 4])
  }

  /** The share of ones asked of the whole padded frame. */
  function TargetShare(ones: int, zeros: int, unit: real): real
    requires 0.0 <= unit < 1.0
  {
    var target := (if zeros < ones then 0.4 else 1.6) + unit / 10.0;
    target / (target + 1.0)
  }

  /** How many ones the padded frame should hold. */
  function GoalOnes(cipher: Bytes, n: nat, unit: real): real
    requires 0.0 <= unit < 1.0
  {
    var ones := CountedOnes(cipher);
    (8 * (n + |cipher|)) as real * TargetShare(ones, 8 * |cipher| - ones, unit)
  }

  lemma TruncateNear(x: real)
    ensures -1.0 < Truncate(x) as real - x < 1.0
  {
    assert x < 0.0 ==> -x - 1.0 < (-x).Floor as real <= -x;
  }

  /** Whether the frame is balanced enough for `makePadding` to shape it rather than fill it at random. */
  predicate Balanced(cipher: Bytes) {
    var ones := CountedOnes(cipher);
    var zeros := 8 * |cipher| - ones;
    zeros > 0 && var ratio := ones as real / zeros as real; 0.5 < ratio < 1.6
  }

  /** In whole numbers: more than half as many ones as zeros, and less than 1.6 times as many. */
  lemma BalancedMeans(cipher: Bytes)
    ensures var ones := CountedOnes(cipher); var zeros := 8 * |cipher| - ones;
      Balanced(cipher) <==> zeros > 0 && 2 * ones > zeros && 10 * ones < 16 * zeros
  {
    var ones := CountedOnes(cipher);
    var zeros := 8 * |cipher| - ones;
    if zeros > 0 {
      Ratio(ones as real, zeros as real, ones as real / zeros as real);
    }
  }

  lemma Ratio(a: real, b: real, q: real)
    requires b > 0.0 && q == a / b
    ensures 0.5 < q < 1.6 <==> 0.5 * b < a < 1.6 * b
  {
    assert q * b == a;
    Scaled(0.5, q, b);
    Scaled(q, 1.6, b);
  }

  lemma Scaled(x: real, y: real, b: real)
    requires b > 0.0
    ensures x < y <==> x * b < y * b
  {
    if x < y {
      assert (y - x) * b > 0.0;
    } else {
      assert (x - y) * b >= 0.0;
    }
  }

  /** The goal shares all bits of the padded frame in a fixed ratio of ones to zeros: 0.4 to 0.5 when the frame has
      more ones than zeros, and 1.6 to 1.7 otherwise. */
  lemma GoalMeans(cipher: Bytes, n: nat, unit: real)
    requires 0.0 <= unit < 1.0
    ensures var goal := GoalOnes(cipher, n, unit); var bits := (8 * (n + |cipher|)) as real;
      var ratio := (if 8 * |cipher| < 2 * CountedOnes(cipher) then 0.4 else 1.6) + unit / 10.0;
      goal == ratio * (bits - goal)
  {
    var bits := (8 * (n + |cipher|)) as real;
    var ratio := (if 8 * |cipher| < 2 * CountedOnes(cipher) then 0.4 else 1.6) + unit / 10.0;
    Share(bits, ratio, GoalOnes(cipher, n, unit));
  }

  lemma Share(bits: real, ratio: real, goal: real)
    requires ratio >= 0.4 && goal == bits * (ratio / (ratio + 1.0))
    ensures goal == ratio * (bits - goal)
  {
    var q := ratio / (ratio + 1.0);
    assert q * (ratio + 1.0) == ratio;
    calc {
      ratio * (bits - goal);
      ratio * bits - ratio * (bits * q);
      bits * (ratio - ratio * q);
      bits * q;
      goal;
    }
  }

  /** The ones asked of the padding. */
  function TargetOnes(cipher: Bytes, n: nat, unit: real): int
    requires 0.0 <= unit < 1.0
  {
    Truncate(GoalOnes(cipher, n, unit) - CountedOnes(cipher) as real)
  }

  /** Truncation drops the fraction: toward zero on both sides. */
  lemma TruncateMeans(x: real, n: int)
    ensures x >= 0.0 ==> (Truncate(x) == n <==> n as real <= x < n as real + 1.0)
    ensures x < 0.0 ==> (Truncate(x) == n <==> n as real - 1.0 < x <= n as real)
  {
  }

  /** Up to three bytes at the end are not counted. */
  lemma CountedMeans(a: Bytes, b: Bytes)
    requires |a| % 4 == 0 && |b| < 4
    ensures CountedOnes(a + b) == Ones(a)
  {
    hide Ones;
    var c := a + b;
    assert |c| - |c| % 4 == |a|;
    assert c[..|a|] == a;
  }

  /** The padding is shaped: the frame is balanced, the unit is drawn and the target can be met. */
  predicate Shaped(cipher: Bytes, n: nat, draw: PadDraw)
    requires draw.Valid()
  {
    n > 0 && Balanced(cipher) && draw.unit.Some? && 0 <= TargetOnes(cipher, n, draw.unit.value) <= 8 * n
  }

  /** Shaping happens exactly when the ones still needed, fraction dropped, are neither negative nor more than fit. */
  lemma ShapedMeans(cipher: Bytes, n: nat, draw: PadDraw)
    requires draw.Valid()
    ensures Shaped(cipher, n, draw) <==>
      && n > 0 && Balanced(cipher) && draw.unit.Some?
      && -1.0 < GoalOnes(cipher, n, draw.unit.value) - CountedOnes(cipher) as real < (8 * n) as real + 1.0
  {
    hide GoalOnes, Balanced, CountedOnes;
    if draw.unit.Some? {
      TruncateNear(GoalOnes(cipher, n, draw.unit.value) - CountedOnes(cipher) as real);
    }
  }

  /** The random source answers what the shuffle of `n` bytes reads. */
  predicate Shuffles(draw: PadDraw, n: nat) {
    forall i :: 0 < i < 8 * n ==> draw.choose(i).Some?
  }

  /** Padding has the length asked for, and fails exactly when a read it needs does. When it is shaped, its ones
      bring the ones counted in the frame to the target share within one bit; otherwise it is the random bytes. */
  method MakePadding(cipher: Bytes, n: nat, draw: PadDraw) returns (r: Option<Bytes>)
    requires draw.Valid()
    ensures r.Some? ==> |r.value| == n
    ensures r.Some? <==>
      if n == 0 then true
      else if Shaped(cipher, n, draw) then Shuffles(draw, n)
      else draw.raw.Some? && (Balanced(cipher) ==> draw.unit.Some?)
    ensures Shaped(cipher, n, draw) && r.Some? ==>
      -1.0 < (CountedOnes(cipher) + Ones(r.value)) as real - GoalOnes(cipher, n, draw.unit.value) < 1.0
    ensures n > 0 && r.Some? && !Shaped(cipher, n, draw) ==> r.value == RawBytes(n, draw.raw.value)
  {
    if n == 0 {
      return Some([]);
    }
    assert |cipher| % 4 <= |cipher|;
    var ones := CountOnes(cipher[..|cipher| - |cipher| % 4]);
    var zeros := 8 * |cipher| - ones;
    if zeros <= 0 {
      return RandomBytes(n, draw);
    }
    var ratio := ones as real / zeros as real;
    if ratio <= 0.5 || ratio >= 1.6 {
      return RandomBytes(n, draw);
    }
    if draw.unit.None? {
      return None;
    }
    var goal := GoalOnes(cipher, n, draw.unit.value);
    var targetOnes := Truncate(goal - ones as real);
    TruncateNear(goal - ones as real);
    if targetOnes < 0 || targetOnes > 8 * n {
      return RandomBytes(n, draw);
    }
    r := BitCountPadding(n, targetOnes, draw.choose);
  }

  lemma {:induction false} OnesConcat(a: Bytes, b: Bytes)
    ensures Ones(a + b) == Ones(a) + Ones(b)
  {
    if a == [] {
      assert a + b == b;
    } else {
      assert (a + b)[1..] == a[1..] + b;
      OnesConcat(a[1..], b);
    }
  }

  method CountOnes(s: Bytes) returns (n: nat)
    ensures n == Ones(s)
  {
    n := 0;
    for i := 0 to |s|
      invariant n == Ones(s[..i])
    {
      assert s[..i + 1] == s[..i] + [s[i]];
      OnesConcat(s[..i], [s[i]]);
      n := n + OnesIn(s[i]);
    }
    assert s[..|s|] == s;
  }
}
