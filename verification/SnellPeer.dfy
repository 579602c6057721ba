/** Snell v4 as a peer written from the format alone reads it. Nothing here uses the nonce, header or padding
    functions of the reader and the writer; every number is written out. */
module SnellPeer {
  import opened Bytes
  import opened SnellNonce
  import opened SnellPadding
  import opened SnellFrame
  import opened SnellIdentity
  import opened SnellStream
  import opened SnellConn

  // ---- nonces ----

  /** Byte `i` of a number, the least significant first. */
  function ByteOf(k: nat, i: nat): byte {
    if i == 0 then k % 256 else ByteOf(k / 256, i - 1)
  }

  /** Twelve bytes that count up from zero. */
  function Counter(k: nat): (n: Bytes)
    ensures |n| == 12
  {
    seq(12, i requires 0 <= i < 12 => ByteOf(k, i))
  }

  lemma {:induction false} LeBytesAt(len: nat, k: nat, i: nat)
    requires i < len
    ensures LeBytes(len, k)[i] == ByteOf(k, i)
    decreases len
  {
    if i > 0 {
      LeBytesAt(len - 1, k / 256, i - 1);
    }
  }

  /** The nonce after `k` seals is the twelve-byte counter at `k`. */
  lemma NonceIsCounter(k: nat)
    ensures NonceAt(k) == Counter(k)
  {
    hide LeBytes, ByteOf;
    forall i | 0 <= i < 12
      ensures NonceAt(k)[i] == Counter(k)[i]
    {
      LeBytesAt(12, k, i);
    }
  }

  /** Twelve bytes are enough for 2^96 seals. */
  lemma NonceSpace()
    ensures Pow256(|ZERO_NONCE|) == 79228162514264337593543950336
  {
    assert Pow256(12) == 256 * Pow256(11) && Pow256(11) == 256 * Pow256(10) && Pow256(10) == 256 * Pow256(9);
    assert Pow256(9) == 256 * Pow256(8) && Pow256(8) == 256 * Pow256(7) && Pow256(7) == 256 * Pow256(6);
    assert Pow256(6) == 256 * Pow256(5) && Pow256(5) == 256 * Pow256(4) && Pow256(4) == 256 * Pow256(3);
  }

  // ---- frames ----

  /** The ciphertext in a frame body of `pad` bytes of padding: its even bytes below `pad` went out among the
      padding, the others lie behind it. */
  function CipherIn(body: Bytes, pad: nat): (c: Bytes)
    requires pad <= |body|
    ensures |c| == |body| - pad
  {
    seq(|body| - pad, i requires 0 <= i < |body| - pad => if i % 2 == 0 && i < pad then body[i] else body[pad + i])
  }

  /** One frame: 23 bytes seal the header [4, _, _, padding length, payload length], each length in two bytes, the
      high one first; then padding and a payload ciphertext of 16 bytes more, under the next nonce. */
  function PeerFrame(a: Aead, k: nat, input: Bytes): FrameRead {
    if |input| < 23 then FrameRead(Fail(Eof), k, [])
    else
      var h := a.open(Counter(k), input[..23]);
      var rest := input[23..];
      if h.None? then FrameRead(Fail(Unauthentic), k + 1, rest)
      else if h.value[0] != 4 then FrameRead(Fail(BadHeader), k + 1, rest)
      else
        var pad: nat, pay: nat := 256 * h.value[3] as int + h.value[4], 256 * h.value[5] as int + h.value[6];
        if pay == 0 then FrameRead(if pad == 0 then ZeroChunk else Fail(PaddedZero), k + 1, rest)
        else if pay > 16383 || pad > 16383 then FrameRead(Fail(TooLarge), k + 1, rest)
        else if |rest| < pad + pay + 16 then FrameRead(Fail(Eof), k + 1, [])
        else
          var p := a.open(Counter(k + 1), CipherIn(rest[..pad + pay + 16], pad));
          FrameRead(if p.None? then Fail(Unauthentic) else Payload(p.value), k + 2, rest[pad + pay + 16..])
  }

  lemma CipherUnswapped(body: Bytes, pad: nat)
    requires pad <= |body|
    ensures Interleaved(body[..pad], body[pad..])[pad..] == CipherIn(body, pad)
  {
    hide Interleaved;
    var p, c := body[..pad], body[pad..];
    InterleavedAt(p, c);
    forall i | 0 <= i < |c|
      ensures Interleaved(p, c)[pad..][i] == CipherIn(body, pad)[i]
    {
      assert Interleaved(p, c)[|p| + i] == Interleaved(p, c)[pad..][i];
    }
  }

  lemma BodyAgrees(a: Aead, k: nat, rest: Bytes, pad: nat, pay: nat)
    requires pay > 0 && pay <= 16383 && pad <= 16383 && |rest| >= pad + pay + 16
    ensures var p := a.open(Counter(k), CipherIn(rest[..pad + pay + 16], pad));
      ReadBody(a, k, rest, pad, pay) ==
        FrameRead(if p.None? then Fail(Unauthentic) else Payload(p.value), k + 1, rest[pad + pay + 16..])
  {
    hide NonceAt, Interleaved, CipherIn, Counter;
    NonceIsCounter(k);
    var body := rest[..pad + pay + 16];
    CipherUnswapped(body, pad);
    assert body[..pad] == rest[..pad] && body[pad..] == rest[pad..pad + pay + 16];
  }

  /** For every input, malformed input included, the reader's frame is the peer's. */
  lemma ReaderIsPeer(a: Aead, k: nat, input: Bytes)
    ensures ReadFrame(a, k, input) == PeerFrame(a, k, input)
  {
    hide NonceAt, Counter, CipherIn, Interleaved, ReadBody;
    NonceIsCounter(k);
    if |input| >= 23 {
      var h := a.open(NonceAt(k), input[..23]);
      if h.Some? {
        var rest := input[23..];
        var pad: nat, pay: nat := 256 * h.value[3] as int + h.value[4], 256 * h.value[5] as int + h.value[6];
        assert GetU16(h.value, 3) == pad && GetU16(h.value, 5) == pay;
        if 0 < pay <= 16383 && pad <= 16383 && |rest| >= pad + pay + 16 {
          BodyAgrees(a, k + 1, rest, pad, pay);
        } else {
          ShortBody(a, k + 1, rest, pad, pay);
        }
      }
    }
  }

  lemma ShortBody(a: Aead, k: nat, rest: Bytes, pad: nat, pay: nat)
    requires pay == 0 || pay > 16383 || pad > 16383 || |rest| < pad + pay + 16
    ensures ReadBody(a, k, rest, pad, pay) ==
      if pay == 0 then FrameRead(if pad == 0 then ZeroChunk else Fail(PaddedZero), k, rest)
      else if pay > 16383 || pad > 16383 then FrameRead(Fail(TooLarge), k, rest)
      else FrameRead(Fail(Eof), k, [])
  {
  }

  /** What the writer sends, the peer reads: each chunk from its own frame, whatever its padding and whatever
      follows. */
  lemma PeerReadsWriter(a: Aead, k: nat, c: Chunk, tail: Bytes)
    requires c.Valid()
    ensures PeerFrame(a, k, FrameOf(a, k, c) + tail) ==
      FrameRead(if c.payload == [] then ZeroChunk else Payload(c.payload), k + (if c.payload == [] then 1 else 2), tail)
  {
    hide PeerFrame, FrameOf, ReadFrame;
    ReadFrameOf(a, k, c, tail);
    ReaderIsPeer(a, k, FrameOf(a, k, c) + tail);
  }

  /** The header of a frame, number by number. */
  function PeerHeader(pad: nat, pay: nat): (h: Bytes)
    requires pad < 0x1_0000 && pay < 0x1_0000
    ensures |h| == 7
  {
    [4, 0, 0, pad / 256, pad % 256, pay / 256, pay % 256]
  }

  lemma HeaderNumbers(pad: nat, pay: nat)
    requires pad < 0x1_0000 && pay < 0x1_0000
    ensures Header(pad, pay) == PeerHeader(pad, pay)
  {
  }

  /** A frame is its sealed header and a body. */
  lemma FrameHeader(a: Aead, k: nat, c: Chunk)
    requires c.Valid() && c.payload != []
    ensures FrameOf(a, k, c)[..23] == a.seal(Counter(k), PeerHeader(|c.padding|, |c.payload|))
    ensures FrameOf(a, k, c)[23..] == Interleaved(c.padding, a.seal(Counter(k + 1), c.payload))
  {
    hide NonceAt, Counter, Interleaved, FrameOf, Header, PeerHeader;
    NonceIsCounter(k);
    NonceIsCounter(k + 1);
    FrameParts(a, k, c);
    HeaderNumbers(|c.padding|, |c.payload|);
    HeadIs(a, Counter(k), PeerHeader(|c.padding|, |c.payload|));
    Split(a.seal(Counter(k), PeerHeader(|c.padding|, |c.payload|)),
          Interleaved(c.padding, a.seal(Counter(k + 1), c.payload)));
  }

  lemma HeadIs(a: Aead, n: Bytes, h: Bytes)
    ensures |a.seal(n, h)| == |h| + 16
  {
  }

  /** In the body the even bytes of padding and ciphertext are exchanged as far as both reach; the odd bytes of both
      stay where they were. */
  lemma FrameBody(a: Aead, k: nat, c: Chunk)
    requires c.Valid() && c.payload != []
    ensures var b := FrameOf(a, k, c)[23..]; var sealed := a.seal(Counter(k + 1), c.payload);
      var pad, pay := |c.padding|, |c.payload|;
      && |b| == pad + pay + 16
      && (forall i :: 0 <= i < pad ==> b[i] == if i % 2 == 0 && i < pay + 16 then sealed[i] else c.padding[i])
      && (forall i :: 0 <= i < pay + 16 ==> b[pad + i] == if i % 2 == 0 && i < pad then c.padding[i] else sealed[i])
  {
    hide FrameOf, Counter, Interleaved;
    FrameHeader(a, k, c);
    InterleavedAt(c.padding, a.seal(Counter(k + 1), c.payload));
  }

  // ---- streams ----

  /** Every symbol in an input, until a frame is refused or missing. */
  function PeerSymbols(a: Aead, k: nat, input: Bytes): seq<Sym>
    decreases |input|
  {
    ReaderIsPeer(a, k, input);
    var f := PeerFrame(a, k, input);
    match f.result
    case Fail(_) => []
    case ZeroChunk => [Zero] + PeerSymbols(a, f.k, f.rest)
    case Payload(p) => Data(p) + PeerSymbols(a, f.k, f.rest)
  }

  /** Sixteen bytes of salt, from which the key comes, then an identity of known length, then frames. */
  function PeerStream(kdf: Bytes -> Aead, wire: Bytes, identity: nat): seq<Sym> {
    if |wire| < 16 + identity then [] else PeerSymbols(kdf(wire[..16]), 0, wire[16 + identity..])
  }

  lemma {:induction false} DecodeIsPeer(a: Aead, k: nat, input: Bytes)
    ensures Decode(a, k, input).syms == PeerSymbols(a, k, input)
    decreases |input|
  {
    hide ReadFrame, PeerFrame;
    ReaderIsPeer(a, k, input);
    var f := ReadFrame(a, k, input);
    if !f.result.Fail? {
      DecodeIsPeer(a, f.k, f.rest);
    }
  }

  /** What the other theorems say a peer makes of a wire is what this peer makes of it. */
  lemma StreamIsPeer(kdf: Bytes -> Aead, wire: Bytes, identity: nat)
    ensures SaltedSkip(kdf, wire, identity) == PeerStream(kdf, wire, identity)
  {
    hide Decode, PeerSymbols;
    if |wire| >= 16 + identity {
      DecodeIsPeer(kdf(wire[..16]), 0, wire[16 + identity..]);
    }
  }

  /** Whatever a connection has sent without an error, a peer that knows the key and the length of the identity reads
      whole; from any part of it a prefix. */
  lemma ConnectionDelivers(c: Conn, cut: Bytes)
    requires c.Valid() && c.OutClean() && c.OwnDraw() && c.w != null && cut <= c.sink.sent
    ensures PeerStream(c.kdf, cut, c.identity.WireLength()) <= Symbols(c.Sent())
    ensures cut == c.sink.sent ==> PeerStream(c.kdf, cut, c.identity.WireLength()) == Symbols(c.Sent())
  {
    hide Symbols, Decode, SaltedSkip, PeerStream, Encode;
    var w := c.w;
    StreamIsPeer(c.kdf, cut, c.identity.WireLength());
    var id := w.identity.Prefix(w.salt);
    if id.Some? {
      WireDelivers(c.kdf, w.salt, id.value, w.log, cut);
    } else {
      NothingYet(c.kdf, cut, c.identity.WireLength());
      assert w.log == [];
      NoSymbols();
    }
  }

  /** Where the writer of a connection has its key, salt and padding from. */
  lemma WriterOf(c: Conn)
    requires c.OwnDraw() && c.w != null
    ensures c.tries > 0 && c.entropy(c.tries - 1).Some?
    ensures var drawn := c.entropy(c.tries - 1).value;
      && c.w.salt == drawn.salt && c.w.aead == c.kdf(drawn.salt) && c.w.initPad == 256 + drawn.delta
      && c.w.identity == c.identity && c.w.clock == c.clock
  {
  }

  lemma NothingYet(kdf: Bytes -> Aead, cut: Bytes, skip: nat)
    ensures cut == [] ==> PeerStream(kdf, cut, skip) == []
  {
  }
}
