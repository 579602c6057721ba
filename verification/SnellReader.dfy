/** The Snell v4 reader object. Its stream is defined for every input, well formed or not, as what is
    buffered followed by all that decodes. */
module SnellReader {
  import opened Bytes
  import opened Net
  import opened SnellNonce
  import opened SnellPadding
  import opened SnellFrame

  datatype ReadResult = Got(data: Bytes) | GotZero | ReadFailed(why: FrameError)

  /** io.ReadFull over a frame reader; `part` is what came before the interruption. */
  datatype FullResult = Full(data: Bytes) | FullZero(part: Bytes) | FullFailed(part: Bytes, why: FrameError)

  class V4Reader {
    const src: Source
    const aead: Aead
    const nonce: array<byte>
    var buf: Bytes
    /** How many times the nonce has been stepped. */
    ghost var k: nat

    constructor (src: Source, aead: Aead)
      ensures Valid() && fresh(nonce) && this.src == src && this.aead == aead && buf == [] && k == 0
    {
      this.src, this.aead, buf, k := src, aead, [], 0;
      nonce := new byte[NONCE_SIZE](_ => 0);
      new;
      ZeroNonce(|ZERO_NONCE|);
      assert nonce[..] == Repeat(|ZERO_NONCE|, 0);
    }

    ghost predicate Valid()
      reads this, nonce
    {
      nonce.Length == NONCE_SIZE && nonce[..] == NonceAt(k)
    }

    ghost function Rest(): Decoded
      reads this, src
    {
      Decode(aead, k, src.input)
    }

    /** Everything this reader has still to deliver. */
    ghost function Stream(): seq<Sym>
      reads this, src
    {
      Data(buf) + Rest().syms
    }

    method ReadFrame() returns (r: FrameResult)
      requires Valid()
      modifies this`k, nonce, src
      ensures Valid()
      ensures FrameRead(r, k, src.input) == SnellFrame.ReadFrame(aead, old(k), old(src.input))
    {
      hide NonceAt, Inc, Interleaved, Decode;
      var headerCipher := src.ReadFull(HEADER_CIPHER_SIZE);
      if headerCipher.None? {
        return Fail(Eof);
      }
      var header := aead.open(nonce[..], headerCipher.value);
      NonceStep(k);
      IncNonce(nonce);
      k := k + 1;
      if header.None? {
        return Fail(Unauthentic);
      }
      if |header.value| != HEADER_SIZE || header.value[0] != 4 {
        return Fail(BadHeader);
      }
      var padLen := GetU16(header.value, 3);
      var payLen := GetU16(header.value, 5);
      r := ReadBody(padLen, payLen);
    }

    method ReadBody(padLen: nat, payLen: nat) returns (r: FrameResult)
      requires Valid()
      modifies this`k, nonce, src
      ensures Valid()
      ensures FrameRead(r, k, src.input) == SnellFrame.ReadBody(aead, old(k), old(src.input), padLen, payLen)
    {
      hide NonceAt, Inc, Interleaved;
      if payLen == 0 {
        if padLen != 0 {
          return Fail(PaddedZero);
        }
        return ZeroChunk;
      }
      if payLen > MAX_PAYLOAD || padLen > MAX_PAYLOAD {
        return Fail(TooLarge);
      }
      ghost var input := src.input;
      var n := padLen + payLen + OVERHEAD;
      var got := src.ReadFull(n);
      if got.None? {
        return Fail(Eof);
      }
      var frame := Unswap(got.value, padLen);
      assert input[..n][..padLen] == input[..padLen] && input[..n][padLen..] == input[padLen..n];
      var payload := aead.open(nonce[..], frame[padLen..]);
      NonceStep(k);
      IncNonce(nonce);
      k := k + 1;
      r := if payload.None? then Fail(Unauthentic) else Payload(payload.value);
    }

    /** Undo the interleaving in a frame buffer; without padding there is nothing to undo. */
    method Unswap(body: Bytes, padLen: nat) returns (frame: Bytes)
      requires padLen <= |body|
      ensures frame == Interleaved(body[..padLen], body[padLen..])
    {
      var buffer := new byte[|body|](i requires 0 <= i < |body| => body[i]);
      assert buffer[..] == body;
      if padLen > 0 {
        assert buffer[..padLen] == body[..padLen] && buffer[padLen..] == body[padLen..];
        SwapPadding(buffer, padLen);
      }
      return buffer[..];
    }

    /** The next bytes of the stream, at most `size`; a zero chunk or the end only when nothing is buffered. */
    method Read(size: nat) returns (r: ReadResult)
      requires Valid()
      modifies this, nonce, src
      ensures Valid()
      ensures r.Got? ==> |r.data| <= size && (size > 0 ==> r.data != [])
      ensures r.Got? ==> old(Stream()) == Data(r.data) + Stream() && Rest().end == old(Rest().end)
      ensures r.GotZero? ==> old(Stream()) == [Zero] + Stream() && Rest().end == old(Rest().end) && buf == []
      ensures r.ReadFailed? ==> old(Stream()) == [] && r.why == old(Rest().end)
    {
      hide NonceAt, SnellFrame.ReadFrame;
      ghost var before := Stream();
      if |buf| == 0 {
        DecodeStep(aead, k, src.input);
        var payload := ReadFrame();
        if payload.Fail? {
          return ReadFailed(payload.why);
        }
        if payload.ZeroChunk? {
          return GotZero;
        }
        buf := payload.data;
      }
      assert before == Stream();
      var n := Min(size, |buf|);
      DataConcat(buf[..n], buf[n..]);
      assert buf == buf[..n] + buf[n..];
      Assoc(Data(buf[..n]), Data(buf[n..]), Rest().syms);
      r := Got(buf[..n]);
      buf := buf[n..];
    }

    method ReadFull(n: nat) returns (r: FullResult)
      requires Valid()
      modifies this, nonce, src
      ensures Valid()
      ensures r.Full? ==> |r.data| == n && old(Stream()) == Data(r.data) + Stream()
      ensures r.FullZero? ==> |r.part| < n && old(Stream()) == Data(r.part) + ([Zero] + Stream())
      ensures r.FullFailed? ==> |r.part| < n && old(Stream()) == Data(r.part)
    {
      hide NonceAt, Decode;
      var got: Bytes := [];
      ghost var all := Stream();
      assert all == Data(got) + Stream();
      while |got| < n
        invariant Valid() && |got| <= n && all == Data(got) + Stream()
        invariant all == old(Stream())
        decreases n - |got|
      {
        ghost var here := Stream();
        var next := Read(n - |got|);
        match next {
          case GotZero => return FullZero(got);
          case ReadFailed(why) =>
            assert all == Data(got) + [];
            return FullFailed(got, why);
          case Got(b) =>
            DataConcat(got, b);
            Assoc(Data(got), Data(b), Stream());
            got := got + b;
        }
      }
      return Full(got);
    }
  }

  /** The first frame of the input, and the rest. */
  lemma DecodeStep(a: Aead, k: nat, input: Bytes)
    ensures var f := SnellFrame.ReadFrame(a, k, input);
      Decode(a, k, input) ==
        match f.result
        case Fail(why) => Decoded([], why)
        case ZeroChunk => var d := Decode(a, f.k, f.rest); Decoded([Zero] + d.syms, d.end)
        case Payload(p) => var d := Decode(a, f.k, f.rest); Decoded(Data(p) + d.syms, d.end)
    ensures var f := SnellFrame.ReadFrame(a, k, input); f.result.Payload? ==> f.result.data != []
  {
    hide SnellFrame.ReadFrame;
  }
}
