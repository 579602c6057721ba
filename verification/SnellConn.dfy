/** The Snell connection object: reader and writer made on first use, the reply, half-close and reset. */
module SnellConn {
  import opened Bytes
  import opened Net
  import opened SnellFrame
  import opened SnellPadding
  import opened SnellIdentity
  import opened SnellPace
  import opened SnellWriter
  import opened SnellReader
  import opened SnellLink

  datatype ConnError = NoWriter | HostTooLong | PacketTooLarge | ReadBroken | BadPong | Wrote(why: WriteError)

  /** The CONNECT request. */
  function ConnectRequest(host: Bytes, port: nat, reuse: bool): Bytes
    requires |host| <= 255 && port < 0x1_0000
  {
    [HEADER_VERSION, if reuse then CMD_CONNECT_V2 else CMD_CONNECT, 0, |host|] + host + U16(port)
  }

  /** A server gets exactly what was asked for. */
  lemma ConnectUnderstood(host: Bytes, port: nat, reuse: bool)
    requires |host| <= 255 && port < 0x1_0000
    ensures ServerConnect(ConnectRequest(host, port, reuse)) == Some(Asked(host, port, reuse))
  {
    var q := ConnectRequest(host, port, reuse);
    assert q[4..4 + |host|] == host;
    assert q[4 + |host|] == port / 256 && q[5 + |host|] == port % 256;
  }

  /** So a request tells its destination and whether the session may be reused, unambiguously. */
  lemma ConnectRequestUnique(h1: Bytes, p1: nat, r1: bool, h2: Bytes, p2: nat, r2: bool)
    requires |h1| <= 255 && |h2| <= 255 && p1 < 0x1_0000 && p2 < 0x1_0000
    requires ConnectRequest(h1, p1, r1) == ConnectRequest(h2, p2, r2)
    ensures h1 == h2 && p1 == p2 && r1 == r2
  {
    hide ConnectRequest, ServerConnect;
    ConnectUnderstood(h1, p1, r1);
    ConnectUnderstood(h2, p2, r2);
  }

  type Salt = s: Bytes | |s| == SALT_SIZE witness Repeat(SALT_SIZE, 0)

  type Delta = d: nat | d < INITIAL_PAD_SPAN

  /** What newWriter draws: the salt and the excess of the initial padding. */
  datatype Entropy = Entropy(salt: Salt, delta: Delta)

  /** What a caller of ReadPacket is told of a frame. */
  function Told(f: FrameResult): ReadOutcome {
    match f
    case Payload(d) => Received(d)
    case ZeroChunk => EndOfStream
    case Fail(_) => ReadError
  }

  class Conn {
    const src: Source
    const sink: Sink
    const kdf: Bytes -> Aead
    const identity: Identity
    /** The random draws of newWriter, in order; None is a failed read. `tries` counts those made. */
    const entropy: nat -> Option<Entropy>
    var tries: nat
    const clock: nat -> int
    var r: V4Reader?
    var w: V4Writer?
    var reply: bool
    var peerClosed: bool

    constructor (src: Source, sink: Sink, kdf: Bytes -> Aead, identity: Identity,
                 entropy: nat -> Option<Entropy>, clock: nat -> int)
      requires sink.sent == []
      ensures Valid() && OutClean() && OwnDraw() && Sent() == []
      ensures r == null && w == null && !reply && !peerClosed
      ensures this.src == src && this.sink == sink && this.kdf == kdf
      ensures this.identity == identity && this.entropy == entropy && this.clock == clock && tries == 0
    {
      this.src, this.sink, this.kdf, this.identity := src, sink, kdf, identity;
      this.entropy, this.clock, tries := entropy, clock, 0;
      r, w, reply, peerClosed := null, null, false, false;
    }

    ghost function ReadParts(): set<object>
      reads this`r
    {
      if r == null then {} else {r, r.nonce}
    }

    ghost function WriteParts(): set<object>
      reads this`w
    {
      if w == null then {} else {w, w.nonce}
    }

    ghost predicate Valid()
      reads this`r, this`w, ReadParts(), WriteParts()
    {
      && (r != null ==> r.Valid() && r.src == src)
      && (w != null ==> w.Valid() && w.sink == sink)
      && ReadParts() !! WriteParts()
    }

    /** The writer has this connection's identity and clock, and the salt and padding of the last draw; its key comes
        from that salt. */
    ghost predicate OwnDraw()
      reads this`w, this`tries
    {
      w != null ==>
        && w.aead == kdf(w.salt) && w.identity == identity && w.clock == clock
        && tries > 0 && entropy(tries - 1).Some?
        && w.salt == entropy(tries - 1).value.salt && w.initPad == 256 + entropy(tries - 1).value.delta
    }

    /** The session as its holder sees it. */
    ghost function AsLink(): Link
      reads this`r, this`reply, this`peerClosed, ReadParts(), src, if r == null then {} else {r.src}
    {
      Link(reply, peerClosed, if r != null then r.Stream() else Salted(kdf, src.input))
    }

    /** The chunks written so far, and that all of them are on the wire. */
    ghost function Sent(): Chunks
      reads this`w, WriteParts()
    {
      if w == null then [] else w.log
    }

    ghost predicate OutClean()
      reads this`w, WriteParts(), sink, if w == null then {} else {w.sink}
    {
      if w == null then sink.sent == [] else w.Clean()
    }

    /** Changes elsewhere do not show. */
    twostate lemma Unmoved(draw: PadDraw)
      requires old(Valid()) && unchanged(this) && unchanged(src) && unchanged(sink)
      requires (r != null ==> unchanged(r) && unchanged(r.nonce))
      requires (w != null ==> unchanged(w) && unchanged(w.nonce))
      ensures Valid() && AsLink() == old(AsLink()) && Sent() == old(Sent())
      ensures OutReady(draw) == old(OutReady(draw))
      ensures ReadParts() == old(ReadParts()) && WriteParts() == old(WriteParts())
    {
    }

    method InitReader() returns (ok: bool)
      requires Valid() && r == null
      modifies this`r, src
      ensures Valid() && fresh(ReadParts())
      ensures ok ==> r != null && AsLink() == old(AsLink()) && r.buf == []
      ensures !ok ==> r == null && old(AsLink()).input == []
    {
      hide Decode;
      var got := src.ReadFull(SALT_SIZE);
      if got.None? {
        return false;
      }
      r := new V4Reader(src, kdf(got.value));
      assert Data([]) + r.Rest().syms == r.Rest().syms;
      return true;
    }

    /** The next write succeeds: the network makes progress and the random source answers. */
    ghost predicate OutReady(draw: PadDraw)
      reads this`w, this`tries, WriteParts(), sink, if w == null then {} else {w.sink}
    {
      if w == null then
        && MakesProgress(sink.script) && draw.Available()
        && entropy(tries).Some? && identity.Prefix(entropy(tries).value.salt).Some?
      else w.Ready(draw)
    }

    /** What that asks for, and no more. */
    lemma OutReadyMeans(draw: PadDraw)
      requires Valid()
      requires forall a :: a in sink.script ==> a.count > 0 && !a.fails
      requires draw.unit.Some? && draw.raw.Some? && forall j: nat :: draw.choose(j).Some?
      requires w == null ==> entropy(tries).Some? && identity.Prefix(entropy(tries).value.salt).Some?
      requires w != null ==> w.Preamble().Some?
      ensures OutReady(draw)
    {
      assert forall i :: 0 <= i < |sink.script| ==> sink.script[i] in sink.script;
    }

    /** A writer that has sent nothing, unless the random source fails; one that exists stays. */
    method InitWriter(ghost draw: PadDraw) returns (ok: bool)
      requires Valid() && (w == null ==> OutClean())
      modifies this`w, this`tries
      ensures ok <==> old(w) != null || entropy(old(tries)).Some?
      ensures ok <==> w != null
      ensures old(w) != null ==> unchanged(this)
      ensures Valid() && Sent() == old(Sent()) && fresh(WriteParts() - old(WriteParts()))
      ensures old(OutClean()) ==> OutClean()
      ensures ok && old(OutReady(draw)) ==> OutReady(draw)
      ensures old(OwnDraw()) ==> OwnDraw()
    {
      hide WireOf, V4Writer.InStep, V4Writer.Clean, V4Writer.Stepped, Identity.Prefix, PadDraw.Available;
      hide MakesProgress, Pace.Valid;
      if w != null {
        return true;
      }
      var drawn := entropy(tries);
      tries := tries + 1;
      if drawn.None? {
        return false;
      }
      w := new V4Writer(sink, kdf(drawn.value.salt), drawn.value.salt, identity, drawn.value.delta, clock);
      return true;
    }

    /** Take exactly `n` bytes off the stream, making the reader first if need be. */
    method Take(n: nat) returns (got: Option<Bytes>)
      requires Valid() && r != null
      modifies ReadParts(), src
      ensures Valid() && r == old(r) && ReadParts() == old(ReadParts())
      ensures match TakeBytes(n, old(AsLink()).input)
        case Whole(d, rest) => got == Some(d) && AsLink() == old(AsLink()).(input := rest)
        case CutByZero(rest) => got == None && AsLink() == old(AsLink()).(input := rest)
        case CutByEnd => got == None
    {
      hide TakeBytes;
      ghost var all := r.Stream();
      var full := r.ReadFull(n);
      match full {
        case Full(d) =>
          TakeData(d, r.Stream());
          return Some(d);
        case FullZero(part) =>
          TakeCut(n, part, [Zero] + r.Stream());
          return None;
        case FullFailed(part, _) =>
          assert all == Data(part) + [];
          TakeCut(n, part, []);
          return None;
      }
    }

    /** Reads the reply once; the flag is set as soon as the command byte is in. */
    method ReadReply() returns (ans: Reply)
      requires Valid()
      modifies this`r, this`reply, ReadParts(), src
      ensures Valid() && fresh(ReadParts() - old(ReadParts())) && (old(r) != null ==> r == old(r))
      ensures old(reply) ==> ans == Accepted && AsLink() == old(AsLink()) && r == old(r)
      ensures old(reply) && r != null ==> unchanged(r, r.nonce, src)
      ensures !old(reply) ==> ans == ReplyOf(old(AsLink()).input).reply && reply == ReplyOf(old(AsLink()).input).seen
      ensures var rest := ReplyOf(old(AsLink()).input).rest; !old(reply) && rest.Some? ==> AsLink().input == rest.value
      ensures !old(reply) && reply ==> r != null
    {
      hide TakeBytes, Decode, RefusalOf;
      if reply {
        return Accepted;
      }
      if r == null {
        var ok := InitReader();
        if !ok {
          NothingToTake(1);
          return Broken;
        }
      }
      var cmd := Take(1);
      if cmd.None? {
        return Broken;
      }
      reply := true;
      if cmd.value[0] == CMD_TUNNEL {
        return Accepted;
      }
      if cmd.value[0] != CMD_ERROR {
        return Unexpected(cmd.value[0]);
      }
      ans := ReadRefusal();
    }

    /** The rest of an error reply. */
    method ReadRefusal() returns (ans: Reply)
      requires Valid() && r != null
      modifies ReadParts(), src
      ensures Valid() && ReadParts() == old(ReadParts()) && ans == RefusalOf(old(AsLink()).input).reply
      ensures var rest := RefusalOf(old(AsLink()).input).rest; rest.Some? ==> AsLink().input == rest.value
    {
      hide TakeBytes, Decode, AsLink;
      var head := Take(2);
      if head.None? {
        return Broken;
      }
      var msg := Take(head.value[1]);
      if msg.None? {
        return Broken;
      }
      return Refused(head.value[0], msg.value);
    }

    /** The reply and the reader, before any data is read. */
    method Start() returns (ok: bool)
      requires Valid()
      modifies this`r, this`reply, ReadParts(), src
      ensures Valid() && fresh(ReadParts() - old(ReadParts()))
      ensures ok ==> r != null && Answered(old(AsLink()))
      ensures ok ==> AsLink() == Link(true, peerClosed, DataInput(old(AsLink())))
      ensures !ok && Answered(old(AsLink())) ==> DataInput(old(AsLink())) == []
      ensures !ok && !Answered(old(AsLink())) ==>
        var q := ReplyOf(old(AsLink()).input); reply == q.seen && (q.rest.Some? ==> AsLink().input == q.rest.value)
      ensures old(reply) && old(r) != null ==> ok && r == old(r) && unchanged(r, r.nonce, src)
    {
      hide TakeBytes, Decode, ReplyOf;
      var ans := ReadReply();
      if !ans.Accepted? {
        return false;
      }
      if r == null {
        ok := InitReader();
        return;
      }
      return true;
    }

    /** A read once the reader exists. */
    method ReadData(size: nat) returns (out: ReadOutcome)
      requires Valid() && r != null && reply
      modifies this`peerClosed, r, r.nonce, src
      ensures Valid() && reply
      ensures out.Received? ==> |out.data| <= size && (size > 0 ==> out.data != []) && peerClosed == old(peerClosed)
      ensures out.Received? ==> old(AsLink()).input == Data(out.data) + AsLink().input
      ensures out.EndOfStream? ==> old(AsLink()).input == [Zero] + AsLink().input && peerClosed
      ensures out.ReadError? ==> old(AsLink()).input == [] && peerClosed == old(peerClosed)
    {
      hide Decode;
      var got := r.Read(size);
      match got {
        case Got(d) => out := Received(d);
        case GotZero =>
          peerClosed := true;
          out := EndOfStream;
        case ReadFailed(_) => out := ReadError;
      }
    }

    method Read(size: nat) returns (out: ReadOutcome)
      requires Valid()
      modifies this`r, this`reply, this`peerClosed, ReadParts(), src
      ensures Valid() && fresh(ReadParts() - old(ReadParts()))
      ensures ReadStep(old(AsLink()), size, out, AsLink())
    {
      hide TakeBytes, Decode, ReplyOf, Salted;
      var ok := Start();
      if !ok {
        return ReadError;
      }
      out := ReadData(size);
    }

    /** The PONG; the flags and the rest of the stream are untouched. */
    method AwaitPong() returns (err: Option<ConnError>)
      requires Valid()
      modifies this`r, ReadParts(), src
      ensures Valid() && fresh(ReadParts() - old(ReadParts()))
      ensures Sent() == old(Sent()) && (old(OutClean()) ==> OutClean())
      ensures err == None ==> old(AsLink()) == AsLink().(input := [B(1)] + AsLink().input)
      ensures err == None <==> var t := TakeBytes(1, old(AsLink()).input); t.Whole? && t.data[0] == 1
    {
      hide TakeBytes, Decode, Salted, V4Writer.Clean;
      ghost var input := AsLink().input;
      if r == null {
        var ok := InitReader();
        if !ok {
          NothingToTake(1);
          return Some(ReadBroken);
        }
      }
      var got := Take(1);
      if got.None? {
        return Some(ReadBroken);
      }
      if got.value[0] != CMD_PONG {
        return Some(BadPong);
      }
      TakenByte(input);
      return None;
    }

    /** PING out, PONG in, on a new transport or a used one. */
    method Warmup(draw: PadDraw) returns (err: Option<ConnError>)
      requires Valid() && (w == null ==> OutClean()) && draw.Valid()
      modifies this`r, this`w, this`tries, ReadParts(), WriteParts(), src, sink
      ensures old(OwnDraw()) ==> OwnDraw()
      ensures Valid() && fresh(ReadParts() - old(ReadParts())) && fresh(WriteParts() - old(WriteParts()))
      ensures old(OutClean()) && err == None ==> OutClean()
      ensures err == None ==> Symbols(Sent()) == Symbols(old(Sent())) + Data([1, 0, 0])
      ensures err == None ==> old(AsLink()) == AsLink().(input := [B(1)] + AsLink().input)
      ensures old(OutReady(draw)) ==>
        (err == None <==> var t := TakeBytes(1, old(AsLink()).input); t.Whole? && t.data[0] == 1)
    {
      hide OwnDraw, TakeBytes, AsLink, OutClean, Sent, Symbols, OutReady;
      var n;
      n, err := Write([HEADER_VERSION, CMD_PING, 0], draw);
      if err != None {
        return;
      }
      assert [HEADER_VERSION, CMD_PING, 0][..3] == [HEADER_VERSION, CMD_PING, 0];
      err := AwaitPong();
    }

    /** Success or not, what is sent gains exactly the bytes reported; after an error at most one more chunk is
        in part on the wire. */
    method Write(b: Bytes, draw: PadDraw) returns (n: nat, err: Option<ConnError>)
      requires Valid() && (w == null ==> OutClean()) && draw.Valid()
      modifies this`w, this`tries, WriteParts(), sink
      ensures old(OwnDraw()) ==> OwnDraw()
      ensures Valid() && fresh(WriteParts() - old(WriteParts()))
      ensures old(w) != null ==> w == old(w)
      ensures err == Some(NoWriter) <==> old(w) == null && entropy(old(tries)).None?
      ensures err == Some(NoWriter) <==> w == null
      ensures err == Some(NoWriter) ==> n == 0 && unchanged(sink)
      ensures err.Some? ==> err == Some(NoWriter) || err.value.Wrote?
      ensures n <= |b| && (err == None ==> n == |b|)
      ensures old(Sent()) <= Sent()
      ensures Symbols(Sent()) == Symbols(old(Sent())) + (if b == [] && err == None then [Zero] else Data(b[..n]))
      ensures old(OutReady(draw)) ==> err == None && OutReady(draw)
      ensures old(OutClean()) && err == None ==> OutClean()
      ensures w != null && old(OutClean()) && err != None ==>
        exists c: Chunk :: c.Valid() && sink.sent <= WireOf(w.Preamble(), w.aead, Sent() + [c])
      ensures AsLink() == old(AsLink())
    {
      hide OwnDraw, WireOf, Symbols, V4Writer.InStep, V4Writer.Ready, V4Writer.Clean, Decode, Salted;
      var ok := InitWriter(draw);
      if !ok {
        assert Data(b[..0]) == [] && Symbols(Sent()) + [] == Symbols(Sent());
        return 0, Some(NoWriter);
      }
      n, err := WriteOn(b, draw);
    }

    /** Write once the writer exists. */
    method WriteOn(b: Bytes, draw: PadDraw) returns (n: nat, err: Option<ConnError>)
      requires Valid() && w != null && draw.Valid()
      modifies WriteParts(), sink
      ensures Valid() && WriteParts() == old(WriteParts())
      ensures n <= |b| && (err == None ==> n == |b|) && (err.Some? ==> err.value.Wrote?)
      ensures old(Sent()) <= Sent()
      ensures Symbols(Sent()) == Symbols(old(Sent())) + (if b == [] && err == None then [Zero] else Data(b[..n]))
      ensures old(w.Ready(draw)) ==> err == None && w.Ready(draw)
      ensures old(w.Clean()) && err == None ==> w.Clean()
      ensures old(w.Clean()) && err != None ==>
        exists c: Chunk :: c.Valid() && sink.sent <= WireOf(w.Preamble(), w.aead, Sent() + [c])
    {
      hide WireOf, Symbols, Pieces, Seals, Encode, PaddedFirst;
      hide V4Writer.Stepped, V4Writer.InStep, V4Writer.Ready, V4Writer.Clean;
      ghost var was := w.log;
      var why;
      ghost var tried;
      n, why, tried := w.Write(b, draw);
      SymbolsConcat(was, Completed(tried, why));
      if why != None {
        ghost var c := tried[|tried| - 1];
        assert was + tried == w.log + [c];
        return n, Some(Wrote(why.value));
      }
      return n, None;
    }

    /** A zero chunk, so that a reused session can take another CONNECT. */
    method HalfClose(draw: PadDraw) returns (err: Option<ConnError>)
      requires Valid() && (w == null ==> OutClean()) && draw.Valid()
      modifies this`w, this`tries, WriteParts(), sink
      ensures old(OwnDraw()) ==> OwnDraw()
      ensures Valid() && fresh(WriteParts() - old(WriteParts())) && (old(w) != null ==> w == old(w))
      ensures old(OutClean()) && err == None ==> OutClean()
      ensures Symbols(Sent()) == Symbols(old(Sent())) + (if err == None then [Zero] else [])
      ensures old(OutReady(draw)) ==> err == None && OutReady(draw)
      ensures AsLink() == old(AsLink())
    {
      hide OwnDraw, Symbols, WireOf, V4Writer.InStep, V4Writer.Ready, Decode, Salted;
      var n;
      n, err := Write([], draw);
    }

    method WriteConnect(host: Bytes, port: nat, reuse: bool, draw: PadDraw) returns (err: Option<ConnError>)
      requires Valid() && (w == null ==> OutClean()) && draw.Valid()
      requires port < 0x1_0000
      modifies this`w, this`tries, WriteParts(), sink
      ensures old(OwnDraw()) ==> OwnDraw()
      ensures Valid() && fresh(WriteParts() - old(WriteParts()))
      ensures |host| > 255 <==> err == Some(HostTooLong)
      ensures |host| > 255 ==> unchanged(this) && unchanged(sink)
      ensures old(OutClean()) && err == None ==> OutClean()
      ensures err == None ==>
        && Symbols(Sent()) == Symbols(old(Sent())) + Data(ConnectRequest(host, port, reuse))
        && ServerConnect(ConnectRequest(host, port, reuse)) == Some(Asked(host, port, reuse))
      ensures old(OutReady(draw)) && |host| <= 255 ==> err == None && OutReady(draw)
    {
      hide OwnDraw, Symbols, WireOf, V4Writer.InStep, V4Writer.Ready, Decode, Salted;
      if |host| > 255 {
        return Some(HostTooLong);
      }
      var n;
      var req := ConnectRequest(host, port, reuse);
      ConnectUnderstood(host, port, reuse);
      hide OwnDraw, ConnectRequest, ServerConnect;
      n, err := Write(req, draw);
      assert req[..|req|] == req;
    }

    /** One datagram as one frame; nothing is sent when it cannot fit one. */
    method WritePacket(b: Bytes, draw: PadDraw) returns (n: nat, err: Option<ConnError>)
      requires Valid() && (w == null ==> OutClean()) && draw.Valid()
      modifies this`w, this`tries, WriteParts(), sink
      ensures old(OwnDraw()) ==> OwnDraw()
      ensures Valid() && fresh(WriteParts() - old(WriteParts()))
      ensures err == Some(PacketTooLarge) <==> |b| > MAX_PAYLOAD
      ensures |b| > MAX_PAYLOAD ==> unchanged(this) && unchanged(sink)
      ensures old(OutReady(draw)) && |b| <= MAX_PAYLOAD ==> err == None && OutReady(draw)
      ensures old(OutClean()) && err == None ==> OutClean()
      ensures err == None ==> n == |b| && |Sent()| == |old(Sent())| + 1
      ensures err == None && |Sent()| == |old(Sent())| + 1 ==>
        Sent()[..|old(Sent())|] == old(Sent()) && Sent()[|old(Sent())|].payload == b
      ensures err != None ==> n == 0 && Sent() == old(Sent())
    {
      hide OwnDraw, WireOf, Symbols, Pieces, V4Writer.InStep, V4Writer.Ready, V4Writer.Clean, V4Writer.Stepped;
      if |b| > MAX_PAYLOAD {
        return 0, Some(PacketTooLarge);
      }
      var ok := InitWriter(draw);
      if !ok {
        return 0, Some(NoWriter);
      }
      var why;
      ghost var c;
      n, why, c := w.WritePacketFrame(b, draw);
      err := if why == None then None else Some(Wrote(why.value));
    }

    /** What is buffered, or else the whole payload of the next frame. */
    method ReadPacket() returns (out: ReadOutcome)
      requires Valid()
      modifies this`r, this`reply, this`peerClosed, ReadParts(), src
      ensures Valid() && fresh(ReadParts() - old(ReadParts()))
      ensures var l := old(AsLink());
        if !Answered(l) then out == ReadError
        else match out
          case Received(d) => d != [] && DataInput(l) == Data(d) + AsLink().input && reply && r != null && r.buf == []
          case EndOfStream => DataInput(l) == [Zero] + AsLink().input && reply && peerClosed
          case ReadError => DataInput(l) == []
      ensures old(reply) && old(r) != null ==> reply && r == old(r) && r.buf == []
      ensures old(reply) && old(r) != null && r == old(r) && old(r.buf) != [] ==>
        out == Received(old(r.buf)) && r.k == old(r.k) && unchanged(src) && peerClosed == old(peerClosed)
      ensures old(reply) && old(r) != null && r == old(r) && old(r.buf) == [] ==>
        var f := SnellFrame.ReadFrame(r.aead, old(r.k), old(src.input));
        out == Told(f.result) && r.k == f.k && src.input == f.rest
    {
      hide TakeBytes, Decode, ReplyOf, Salted, SnellFrame.ReadFrame;
      var ok := Start();
      if !ok {
        return ReadError;
      }
      out := NextPacket();
    }

    method NextPacket() returns (out: ReadOutcome)
      requires Valid() && r != null && reply
      modifies this`peerClosed, r, r.nonce, src
      ensures Valid() && reply
      ensures out.Received? ==> out.data != [] && r.buf == [] && old(AsLink()).input == Data(out.data) + AsLink().input
      ensures out.EndOfStream? ==> old(AsLink()).input == [Zero] + AsLink().input && peerClosed
      ensures out.ReadError? ==> old(AsLink()).input == []
      ensures r.buf == []
      ensures old(r.buf) != [] ==>
        out == Received(old(r.buf)) && r.k == old(r.k) && unchanged(src) && peerClosed == old(peerClosed)
      ensures old(r.buf) == [] ==>
        var f := SnellFrame.ReadFrame(r.aead, old(r.k), old(src.input));
        out == Told(f.result) && r.k == f.k && src.input == f.rest
    {
      hide Decode, SnellFrame.ReadFrame;
      if |r.buf| > 0 {
        out := Received(r.buf);
        r.buf := [];
        assert Data([]) + r.Rest().syms == r.Rest().syms;
        return out;
      }
      DecodeStep(r.aead, r.k, src.input);
      assert Data([]) + r.Rest().syms == r.Rest().syms;
      var got := r.ReadFrame();
      assert Data([]) + r.Rest().syms == r.Rest().syms;
      match got {
        case Payload(d) => out := Received(d);
        case ZeroChunk =>
          peerClosed := true;
          out := EndOfStream;
        case Fail(_) => out := ReadError;
      }
    }

    /** The next CONNECT waits for a reply of its own. */
    method ResetReply()
      requires Valid()
      modifies this`reply, this`peerClosed
      ensures Valid() && AsLink() == Link(false, false, old(AsLink()).input) && Sent() == old(Sent())
    {
      reply, peerClosed := false, false;
    }
  }

  lemma NothingToTake(n: nat)
    requires n > 0
    ensures TakeBytes(n, []) == CutByEnd
  {
  }

  lemma TakenByte(s: seq<Sym>)
    ensures TakeBytes(1, s).Whole? ==> s == [B(TakeBytes(1, s).data[0])] + TakeBytes(1, s).rest
  {
  }

  lemma SymbolsConcat(cs: Chunks, ds: Chunks)
    ensures Symbols(cs + ds) == Symbols(cs) + Symbols(ds)
  {
    hide Encode, Symbols;
    EncodeConcat(TAG_ONLY, 0, cs, ds);
  }
}
