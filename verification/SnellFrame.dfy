/** The Snell v4 frame format on values: what a writer puts on the wire for a list of
    chunks, what a reader makes of any byte string, and that the second undoes the first. */
module SnellFrame {
  import opened Bytes
  import opened SnellNonce
  import opened SnellPadding

  const SALT_SIZE := 16
  const HEADER_SIZE := 7
  const OVERHEAD := 16
  const HEADER_CIPHER_SIZE := 23
  const MAX_PAYLOAD := 0x3FFF

  // ---- authenticated encryption, known only by its laws ----

  datatype Cipher = Cipher(seal: (Bytes, Bytes) -> Bytes, open: (Bytes, Bytes) -> Option<Bytes>) {
    /** Open undoes Seal under the same nonce; a ciphertext is 16 bytes longer than its plaintext. */
    ghost predicate Lawful() {
      && (forall n: Bytes, p: Bytes :: |seal(n, p)| == |p| + OVERHEAD)
      && (forall n: Bytes, p: Bytes :: open(n, seal(n, p)) == Some(p))
      && (forall n: Bytes, c: Bytes :: open(n, c).Some? ==> |c| == |open(n, c).value| + OVERHEAD)
    }
  }

  /** A cipher that appends a fixed tag: the laws are not contradictory. */
  const TAG_ONLY := Cipher(
    (n: Bytes, p: Bytes) => p + Repeat(OVERHEAD, 0),
    (n: Bytes, c: Bytes) =>
      if |c| >= OVERHEAD && c[|c| - OVERHEAD..] == Repeat(OVERHEAD, 0) then Some(c[..|c| - OVERHEAD]) else None)

  type Aead = c: Cipher | c.Lawful() ghost witness TAG_ONLY

  // ---- chunks and frames ----

  datatype Chunk = Chunk(payload: Bytes, padding: Bytes) {
    predicate Valid() {
      && |payload| <= MAX_PAYLOAD
      && |padding| <= MAX_PAYLOAD
      && (payload == [] ==> padding == [])
    }
  }

  type Chunks = cs: seq<Chunk> | forall i :: 0 <= i < |cs| ==> cs[i].Valid()

  function Header(padLen: nat, payLen: nat): (h: Bytes)
    requires padLen < 0x1_0000 && payLen < 0x1_0000
    ensures |h| == HEADER_SIZE
  {
    [4, 0, 0] + U16(padLen) + U16(payLen)
  }

  /** How many times sealing this chunk steps the nonce. */
  function Steps(c: Chunk): nat {
    if c.payload == [] then 1 else 2
  }

  function FrameOf(a: Aead, k: nat, c: Chunk): (f: Bytes)
    requires c.Valid()
    ensures |f| == if c.payload == [] then HEADER_CIPHER_SIZE
                   else HEADER_CIPHER_SIZE + |c.padding| + |c.payload| + OVERHEAD
  {
    var header := a.seal(NonceAt(k), Header(|c.padding|, |c.payload|));
    if c.payload == [] then header
    else header + Interleaved(c.padding, a.seal(NonceAt(k + 1), c.payload))
  }

  lemma FrameParts(a: Aead, k: nat, c: Chunk)
    requires c.Valid()
    ensures var header := a.seal(NonceAt(k), Header(|c.padding|, |c.payload|));
      FrameOf(a, k, c) ==
        header + (if c.payload == [] then [] else Interleaved(c.padding, a.seal(NonceAt(k + 1), c.payload)))
    ensures Interleaved([], []) == []
  {
  }

  function Seals(cs: seq<Chunk>): nat {
    if cs == [] then 0 else Steps(cs[0]) + Seals(cs[1..])
  }

  function Encode(a: Aead, k: nat, cs: Chunks): Bytes
    decreases |cs|
  {
    if cs == [] then [] else FrameOf(a, k, cs[0]) + Encode(a, k + Steps(cs[0]), cs[1..])
  }

  // ---- reading ----

  datatype FrameError = Eof | Unauthentic | BadHeader | PaddedZero | TooLarge

  datatype FrameResult = Payload(data: Bytes) | ZeroChunk | Fail(why: FrameError)

  /** The outcome of one readFrame, the nonce counter after it and the input it left. */
  datatype FrameRead = FrameRead(result: FrameResult, k: nat, rest: Bytes)

  function ReadFrame(a: Aead, k: nat, input: Bytes): (r: FrameRead)
    ensures !r.result.Fail? ==> |r.rest| < |input|
    ensures r.result.Payload? ==> 0 < |r.result.data| <= MAX_PAYLOAD
  {
    if |input| < HEADER_CIPHER_SIZE then FrameRead(Fail(Eof), k, [])
    else
      var plain := a.open(NonceAt(k), input[..HEADER_CIPHER_SIZE]);
      var rest := input[HEADER_CIPHER_SIZE..];
      if plain.None? then FrameRead(Fail(Unauthentic), k + 1, rest)
      else if plain.value[0] != 4 then FrameRead(Fail(BadHeader), k + 1, rest)
      else ReadBody(a, k + 1, rest, GetU16(plain.value, 3), GetU16(plain.value, 5))
  }

  function ReadBody(a: Aead, k: nat, input: Bytes, padLen: nat, payLen: nat): (r: FrameRead)
    ensures !r.result.Fail? ==> |r.rest| <= |input|
    ensures r.result.Payload? ==> 0 < |r.result.data| <= MAX_PAYLOAD
  {
    var n := padLen + payLen + OVERHEAD;
    if payLen == 0 then
      FrameRead(if padLen != 0 then Fail(PaddedZero) else ZeroChunk, k, input)
    else if payLen > MAX_PAYLOAD || padLen > MAX_PAYLOAD then FrameRead(Fail(TooLarge), k, input)
    else if |input| < n then FrameRead(Fail(Eof), k, [])
    else
      var body := Interleaved(input[..padLen], input[padLen..n]);
      var plain := a.open(NonceAt(k), body[padLen..]);
      FrameRead(if plain.None? then Fail(Unauthentic) else Payload(plain.value), k + 1, input[n..])
  }

  /** One frame followed by anything reads back as its own chunk, and the reader's nonce ends where
      the writer's does. */
  lemma ReadFrameOf(a: Aead, k: nat, c: Chunk, tail: Bytes)
    requires c.Valid()
    ensures ReadFrame(a, k, FrameOf(a, k, c) + tail)
         == FrameRead(if c.payload == [] then ZeroChunk else Payload(c.payload), k + Steps(c), tail)
  {
    hide NonceAt, Interleaved;
    var plain := Header(|c.padding|, |c.payload|);
    var header := a.seal(NonceAt(k), plain);
    var input := FrameOf(a, k, c) + tail;
    assert input[..HEADER_CIPHER_SIZE] == header;
    HeaderFields(|c.padding|, |c.payload|);
    if c.payload == [] {
      assert input[HEADER_CIPHER_SIZE..] == tail;
    } else {
      var sealed := a.seal(NonceAt(k + 1), c.payload);
      assert input[HEADER_CIPHER_SIZE..] == Interleaved(c.padding, sealed) + tail;
      ReadBodyOf(a, k + 1, c, tail);
    }
  }

  lemma HeaderFields(padLen: nat, payLen: nat)
    requires padLen < 0x1_0000 && payLen < 0x1_0000
    ensures Header(padLen, payLen)[0] == 4
    ensures GetU16(Header(padLen, payLen), 3) == padLen && GetU16(Header(padLen, payLen), 5) == payLen
  {
    U16RoundTrip([4, 0, 0], padLen, U16(payLen));
    U16RoundTrip([4, 0, 0] + U16(padLen), payLen, []);
    assert [4, 0, 0] + U16(padLen) + U16(payLen) + [] == Header(padLen, payLen);
  }

  lemma ReadBodyOf(a: Aead, k: nat, c: Chunk, tail: Bytes)
    requires c.Valid() && c.payload != []
    ensures ReadBody(a, k, Interleaved(c.padding, a.seal(NonceAt(k), c.payload)) + tail, |c.padding|, |c.payload|)
         == FrameRead(Payload(c.payload), k + 1, tail)
  {
    var sealed := a.seal(NonceAt(k), c.payload);
    var wire := Interleaved(c.padding, sealed);
    var input := wire + tail;
    var padLen, n := |c.padding|, |c.padding| + |c.payload| + OVERHEAD;
    assert input[..padLen] == wire[..padLen] && input[padLen..n] == wire[padLen..] && input[n..] == tail;
    InterleavedTwice(c.padding, sealed);
    Split(c.padding, sealed);
  }

  // ---- whole streams ----

  /** What a stream carries: data bytes, and the marks left by zero chunks. */
  datatype Sym = B(b: byte) | Zero

  function Data(b: Bytes): (s: seq<Sym>)
    ensures |s| == |b|
  {
    seq(|b|, i requires 0 <= i < |b| => B(b[i]))
  }

  lemma DataConcat(a: Bytes, b: Bytes)
    ensures Data(a + b) == Data(a) + Data(b)
  {
  }

  function SymbolsOf(c: Chunk): seq<Sym> {
    if c.payload == [] then [Zero] else Data(c.payload)
  }

  function Symbols(cs: seq<Chunk>): seq<Sym> {
    if cs == [] then [] else SymbolsOf(cs[0]) + Symbols(cs[1..])
  }

  /** All a reader can take from `input`, and why it stops. */
  datatype Decoded = Decoded(syms: seq<Sym>, end: FrameError)

  function Decode(a: Aead, k: nat, input: Bytes): Decoded
    decreases |input|
  {
    var f := ReadFrame(a, k, input);
    match f.result
    case Fail(why) => Decoded([], why)
    case ZeroChunk => var d := Decode(a, f.k, f.rest); Decoded([Zero] + d.syms, d.end)
    case Payload(p) => var d := Decode(a, f.k, f.rest); Decoded(Data(p) + d.syms, d.end)
  }

  /** Decoding undoes encoding for every chunk list, and carries on with what follows. */
  lemma {:induction false} DecodeEncode(a: Aead, k: nat, cs: Chunks, tail: Bytes)
    ensures Decode(a, k, Encode(a, k, cs) + tail).syms == Symbols(cs) + Decode(a, k + Seals(cs), tail).syms
    ensures Decode(a, k, Encode(a, k, cs) + tail).end == Decode(a, k + Seals(cs), tail).end
    decreases |cs|
  {
    hide NonceAt, FrameOf, ReadFrame;
    if cs == [] {
      assert Encode(a, k, cs) + tail == tail;
    } else {
      var c, rest := cs[0], cs[1..];
      var more := Encode(a, k + Steps(c), rest) + tail;
      Assoc(FrameOf(a, k, c), Encode(a, k + Steps(c), rest), tail);
      ReadFrameOf(a, k, c, more);
      DecodeEncode(a, k + Steps(c), rest, tail);
      Assoc(SymbolsOf(c), Symbols(rest), Decode(a, k + Seals(cs), tail).syms);
    }
  }

  /** A frame cut short yields nothing but end of input. */
  lemma CutFrame(a: Aead, k: nat, c: Chunk, cut: Bytes)
    requires c.Valid() && cut < FrameOf(a, k, c)
    ensures ReadFrame(a, k, cut).result == Fail(Eof)
  {
    if |cut| >= HEADER_CIPHER_SIZE {
      HeaderFields(|c.padding|, |c.payload|);
      assert cut[..HEADER_CIPHER_SIZE] == a.seal(NonceAt(k), Header(|c.padding|, |c.payload|));
    }
  }

  lemma NoInput(a: Aead, k: nat)
    ensures ReadFrame(a, k, []).result == Fail(Eof)
  {
  }

  /** However much of an encoded stream has arrived, it decodes to a prefix of what was written and then
      stops for lack of input. */
  lemma {:induction false} DecodePrefix(a: Aead, k: nat, cs: Chunks, cut: Bytes)
    requires cut <= Encode(a, k, cs)
    ensures Decode(a, k, cut).syms <= Symbols(cs)
    ensures Decode(a, k, cut).end == Eof
    decreases |cs|
  {
    hide NonceAt, FrameOf, ReadFrame;
    if cs == [] {
      assert ReadFrame(a, k, cut).result == Fail(Eof) by { NoInput(a, k); }
    } else {
      var c, rest := cs[0], cs[1..];
      var f := FrameOf(a, k, c);
      if |cut| < |f| {
        assert cut == f[..|cut|];
        CutFrame(a, k, c, cut);
      } else {
        var more := cut[|f|..];
        assert cut == f + more;
        assert more <= Encode(a, k + Steps(c), rest);
        ReadFrameOf(a, k, c, more);
        DecodePrefix(a, k + Steps(c), rest, more);
      }
    }
  }

  lemma {:induction false} EncodeConcat(a: Aead, k: nat, cs: Chunks, ds: Chunks)
    ensures Encode(a, k, cs + ds) == Encode(a, k, cs) + Encode(a, k + Seals(cs), ds)
    ensures Seals(cs + ds) == Seals(cs) + Seals(ds)
    ensures Symbols(cs + ds) == Symbols(cs) + Symbols(ds)
    decreases |cs|
  {
    hide NonceAt, FrameOf;
    if cs == [] {
      assert cs + ds == ds;
    } else {
      assert (cs + ds)[1..] == cs[1..] + ds;
      var c, rest := cs[0], cs[1..];
      EncodeConcat(a, k + Steps(c), rest, ds);
      Assoc(FrameOf(a, k, c), Encode(a, k + Steps(c), rest), Encode(a, k + Seals(cs), ds));
      Assoc(SymbolsOf(c), Symbols(rest), Symbols(ds));
    }
  }

  /** What a fresh reader makes of a wire that starts with a salt. The library's own reader skips nothing
      after the salt; a server skips the client's identity prefix. */
  function SaltedSkip(kdf: Bytes -> Aead, wire: Bytes, skip: nat): seq<Sym> {
    if |wire| < SALT_SIZE + skip then [] else Decode(kdf(wire[..SALT_SIZE]), 0, wire[SALT_SIZE + skip..]).syms
  }

  function Salted(kdf: Bytes -> Aead, wire: Bytes): seq<Sym> {
    SaltedSkip(kdf, wire, 0)
  }

  // ---- a client's stream: salt and identity, then frames ----

  /** The bytes on the wire once `cs` is written; `pre` is the salt and identity prefix. */
  function WireOf(pre: Option<Bytes>, a: Aead, cs: Chunks): Bytes {
    if cs == [] || pre.None? then [] else pre.value + Encode(a, 0, cs)
  }

  /** What the next frame adds to the wire. */
  function Added(pre: Bytes, a: Aead, cs: Chunks, c: Chunk): Bytes
    requires c.Valid()
  {
    (if cs == [] then pre else []) + FrameOf(a, Seals(cs), c)
  }

  lemma WireGrows(pre: Bytes, a: Aead, cs: Chunks, c: Chunk)
    requires c.Valid()
    ensures WireOf(Some(pre), a, cs + [c]) == WireOf(Some(pre), a, cs) + Added(pre, a, cs, c)
    ensures Seals(cs + [c]) == Seals(cs) + Steps(c)
  {
    hide FrameOf, NonceAt;
    EncodeConcat(a, 0, cs, [c]);
    assert Encode(a, Seals(cs), [c]) == FrameOf(a, Seals(cs), c) + [];
    assert Seals([c]) == Steps(c) + Seals([]);
    if cs == [] {
      assert Encode(a, 0, cs) == [];
    } else {
      Assoc(pre, Encode(a, 0, cs), FrameOf(a, Seals(cs), c));
    }
  }

  lemma WireMonotone(pre: Option<Bytes>, a: Aead, cs: Chunks, ds: Chunks)
    ensures WireOf(pre, a, cs) <= WireOf(pre, a, cs + ds)
  {
    hide FrameOf, NonceAt;
    EncodeConcat(a, 0, cs, ds);
    if pre.Some? && cs != [] {
      Assoc(pre.value, Encode(a, 0, cs), Encode(a, Seals(cs), ds));
    }
  }

  // ---- nonces ----

  /** The nonces a writer seals with, in order. */
  function NoncesUsed(k: nat, cs: seq<Chunk>): seq<Bytes>
    decreases |cs|
  {
    if cs == [] then []
    else (if cs[0].payload == [] then [NonceAt(k)] else [NonceAt(k), NonceAt(k + 1)])
         + NoncesUsed(k + Steps(cs[0]), cs[1..])
  }

  lemma {:induction false} NoncesCount(k: nat, cs: seq<Chunk>)
    ensures |NoncesUsed(k, cs)| == Seals(cs)
    ensures forall i :: 0 <= i < Seals(cs) ==> NoncesUsed(k, cs)[i] == NonceAt(k + i)
    decreases |cs|
  {
    hide NonceAt;
    if cs != [] {
      NoncesCount(k + Steps(cs[0]), cs[1..]);
    }
  }

  /** No two of the first 2^96 seals of a direction share a nonce. */
  lemma NoncesNeverRepeat(cs: seq<Chunk>, i: nat, j: nat)
    requires Seals(cs) <= Pow256(|ZERO_NONCE|)
    requires i < j < Seals(cs)
    ensures |NoncesUsed(0, cs)| == Seals(cs)
    ensures NoncesUsed(0, cs)[i] != NoncesUsed(0, cs)[j]
  {
    hide Pow256, NonceAt;
    NoncesCount(0, cs);
    NoncesDiffer(i, j);
  }
}
