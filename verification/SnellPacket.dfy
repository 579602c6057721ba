/** UDP over a Snell connection: one frame per datagram, both ways. */
module SnellPacket {
  import opened Bytes
  import opened SnellFrame
  import opened SnellPadding
  import opened SnellLink
  import opened SnellConn
  import opened UdpCodec

  datatype PacketError = BadAddress | BadRequest(why: RequestError) | TooBig | ConnFailed

  /** What ReadFrom makes of a packet: a payload longer than the buffer is cut to it. */
  function DatagramOf(pkt: Bytes, size: nat): Option<Datagram> {
    match ParseUDPResponse(pkt)
    case None => None
    case Some(d) => Some(d.(payload := d.payload[..Min(size, |d.payload|)]))
  }

  function DatagramIn(f: FrameResult, size: nat): Option<Datagram> {
    if f.Payload? then DatagramOf(f.data, size) else None
  }

  class PacketConn {
    const conn: Conn

    constructor (c: Conn)
      ensures conn == c
    {
      conn := c;
    }

    /** A success is exactly one more frame, which decodes only to the address's destination and this payload. An
        address that cannot be read, a datagram that cannot be encoded and one that does not fit send nothing;
        anything else is sent when the connection is ready. */
    method WriteTo(parseIP: IPText, p: Bytes, a: NetAddr, draw: PadDraw) returns (n: nat, err: Option<PacketError>)
      requires Lawful(parseIP) && a.Valid() && draw.Valid()
      requires conn.Valid() && (conn.w == null ==> conn.OutClean())
      modifies conn`w, conn`tries, conn.WriteParts(), conn.sink
      ensures conn.Valid()
      ensures err == None ==> n == |p| && |conn.Sent()| == |old(conn.Sent())| + 1
      ensures err == None && |conn.Sent()| == |old(conn.Sent())| + 1 ==>
        && conn.Sent()[..|old(conn.Sent())|] == old(conn.Sent())
        && Some(conn.Sent()[|old(conn.Sent())|].payload) == Forwarded(parseIP, a, p)
      ensures err == None ==>
        && Forwarded(parseIP, a, p).Some? && Destination(parseIP, a).Some?
        && DecodeRequest(Forwarded(parseIP, a, p).value) ==
             Some(Datagram(Destination(parseIP, a).value.0, Destination(parseIP, a).value.1, p))
      ensures old(conn.OutClean()) && err == None ==> conn.OutClean()
      ensures err.Some? && !err.value.ConnFailed? ==> unchanged(conn) && unchanged(conn.sink)
      ensures err.Some? && err.value.ConnFailed? ==> n == 0 && conn.Sent() == old(conn.Sent())
      ensures err == Some(BadAddress) <==> Destination(parseIP, a).None?
      ensures err == Some(TooBig) <==> var wire := Forwarded(parseIP, a, p); wire.Some? && |wire.value| > MAX_PAYLOAD
      ensures old(conn.OutReady(draw)) ==>
        (err == None <==> var wire := Forwarded(parseIP, a, p); wire.Some? && |wire.value| <= MAX_PAYLOAD)
    {
      hide DecodeRequest, RequestWire, Destination;
      DestinationValid(parseIP, a);
      var dest := Destination(parseIP, a);
      if dest.None? {
        return 0, Some(BadAddress);
      }
      var pkt := EncodeUDPRequest(dest.value.0, dest.value.1, p);
      if pkt.Refused? {
        return 0, Some(BadRequest(pkt.error));
      }
      RequestRoundTrip(dest.value.0, dest.value.1, p);
      var m, why := conn.WritePacket(pkt.wire, draw);
      if why == Some(PacketTooLarge) {
        return 0, Some(TooBig);
      }
      if why != None {
        return 0, Some(ConnFailed);
      }
      return |p|, None;
    }

    /** One datagram from one packet: what is buffered, or else the payload of the next frame, whole. Nothing is
        returned only when the peer has not answered, the stream has ended or broken, or the packet is no
        response. */
    method ReadFrom(size: nat) returns (r: Option<Datagram>)
      requires conn.Valid()
      modifies conn`r, conn`reply, conn`peerClosed, conn.ReadParts(), conn.src
      ensures conn.Valid()
      ensures r.Some? ==> exists pkt: Bytes ::
        && Answered(old(conn.AsLink())) && DataInput(old(conn.AsLink())) == Data(pkt) + conn.AsLink().input
        && r == DatagramOf(pkt, size)
      ensures r.None? ==> (
        var l := old(conn.AsLink());
        || !Answered(l) || DataInput(l) == [] || DataInput(l)[0] == Zero
        || exists pkt: Bytes ::
             pkt != [] && DataInput(l) == Data(pkt) + conn.AsLink().input && ParseUDPResponse(pkt).None?)
      ensures old(conn.reply) && old(conn.r) != null ==> conn.reply && conn.r == old(conn.r) && conn.r.buf == []
      ensures old(conn.reply) && old(conn.r) != null && conn.r == old(conn.r) && old(conn.r.buf) != [] ==>
        r == DatagramOf(old(conn.r.buf), size) && conn.r.k == old(conn.r.k) && unchanged(conn.src)
      ensures old(conn.reply) && old(conn.r) != null && conn.r == old(conn.r) && old(conn.r.buf) == [] ==>
        var f := SnellFrame.ReadFrame(conn.r.aead, old(conn.r.k), old(conn.src.input));
        r == DatagramIn(f.result, size) && conn.r.k == f.k && conn.src.input == f.rest
    {
      hide ReplyOf, ParseUDPResponse, Answered, DataInput, Data, Conn.AsLink, Conn.Valid, SnellFrame.ReadFrame;
      var out := conn.ReadPacket();
      if !out.Received? {
        return None;
      }
      var d := ParseUDPResponse(out.data);
      if d.None? {
        return None;
      }
      return Some(d.value.(payload := d.value.payload[..Min(size, |d.value.payload|)]));
    }
  }

  lemma NoDatagram(size: nat)
    ensures DatagramOf([], size) == None
  {
  }

  /** A server's answer is received as it was sent, up to the size of the buffer. */
  lemma AnswerReceived(ip: Bytes, port: nat, payload: Bytes, size: nat)
    requires (|ip| == 4 || |ip| == 16) && port < 0x1_0000
    ensures DatagramOf(ResponseWire(ip, port, payload), size) ==
      Some(Datagram(HostOfIP(ip), port, payload[..Min(size, |payload|)]))
  {
    hide ParseUDPResponse, ResponseWire, HostOfIP;
    ResponseRoundTrip(ip, port, payload);
  }

  /** The first of several frames, and the others behind it. */
  lemma FirstFrame(a: Aead, k: nat, cs: Chunks, tail: Bytes, size: nat)
    requires cs != []
    ensures var f := SnellFrame.ReadFrame(a, k, Encode(a, k, cs) + tail);
      && DatagramIn(f.result, size) == DatagramOf(cs[0].payload, size)
      && f.k == k + Steps(cs[0]) && f.rest == Encode(a, f.k, cs[1..]) + tail
  {
    hide FrameOf, ParseUDPResponse, SnellFrame.ReadFrame;
    var more := Encode(a, k + Steps(cs[0]), cs[1..]) + tail;
    Assoc(FrameOf(a, k, cs[0]), Encode(a, k + Steps(cs[0]), cs[1..]), tail);
    ReadFrameOf(a, k, cs[0], more);
    NoDatagram(size);
  }

  /** A caller that receives datagram after datagram: successive frames give successive results, one each, whatever
      follows them on the wire, and leave what follows. */
  method ReadEach(p: PacketConn, n: nat, size: nat, ghost cs: Chunks, ghost tail: Bytes)
    returns (out: seq<Option<Datagram>>)
    requires p.conn.Valid() && p.conn.reply && p.conn.r != null && p.conn.r.buf == [] && n == |cs|
    requires p.conn.src.input == Encode(p.conn.r.aead, p.conn.r.k, cs) + tail
    modifies p.conn`r, p.conn`reply, p.conn`peerClosed, p.conn.ReadParts(), p.conn.src
    ensures |out| == n && forall i :: 0 <= i < n ==> out[i] == DatagramOf(cs[i].payload, size)
    ensures p.conn.Valid() && p.conn.r == old(p.conn.r) && p.conn.src.input == tail
  {
    hide Conn.Valid, Encode, DatagramOf, DatagramIn, SnellFrame.ReadFrame;
    out := [];
    ghost var r := p.conn.r;
    for i := 0 to n
      invariant p.conn.Valid() && p.conn.reply && p.conn.r == r && r.buf == []
      invariant p.conn.ReadParts() == old(p.conn.ReadParts())
      invariant p.conn.src.input == Encode(r.aead, r.k, cs[i..]) + tail
      invariant |out| == i && forall j :: 0 <= j < i ==> out[j] == DatagramOf(cs[j].payload, size)
    {
      FirstFrame(r.aead, r.k, cs[i..], tail, size);
      var got := p.ReadFrom(size);
      assert cs[i..][1..] == cs[i + 1..] && cs[i..][0] == cs[i];
      out := out + [got];
    }
    NoFrames(r.aead, r.k, cs[n..]);
    assert [] + tail == tail;
  }

  lemma NoFrames(a: Aead, k: nat, cs: Chunks)
    requires cs == []
    ensures Encode(a, k, cs) == []
  {
  }
}
