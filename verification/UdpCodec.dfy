/** The two datagram formats a relayed packet passes through: SOCKS (section 7 of RFC 1928) on the client's
    side, Snell UDP-over-TCP on the server's. Hosts are canonical values rather than text. */
module UdpCodec {
  import opened Bytes
  import opened HostPort
  import opened SnellFrame

  /** A destination: an IPv4 address, an IPv6 address that is not one in disguise, or a domain. */
  datatype Host = V4(ip: Bytes) | V6(ip6: Bytes) | Domain(name: Bytes) {
    predicate Valid() {
      match this
      case V4(ip) => |ip| == 4
      case V6(ip) => |ip| == 16 && ip[..12] != V4_IN_V6
      case Domain(_) => true
    }
  }

  type IPText = Bytes -> Option<Host>

  /** ParseIP gives addresses, in canonical form. */
  ghost predicate Lawful(parseIP: IPText) {
    forall t: Bytes :: parseIP(t).Some? ==> !parseIP(t).value.Domain? && parseIP(t).value.Valid()
  }

  /** Text parsers with that law exist. */
  lemma LawfulExists()
    ensures Lawful((t: Bytes) => None)
  {
  }

  /** Ten zeros and two bytes of 255 before the four bytes of an IPv4 address. */
  lemma CanonMeans(b: Bytes)
    requires |b| == 16
    ensures var mapped := b[10] == 255 && b[11] == 255 && forall i :: 0 <= i < 10 ==> b[i] == 0;
      Canon16(b) == if mapped then V4(b[12..]) else V6(b)
  {
    assert b[..12] == V4_IN_V6 <==> forall i :: 0 <= i < 12 ==> b[i] == V4_IN_V6[i];
  }

  /** The canonical form of sixteen bytes: a mapped IPv4 address prints and parses as IPv4. */
  function Canon16(b: Bytes): (h: Host)
    requires |b| == 16
    ensures h.Valid()
  {
    if b[..12] == V4_IN_V6 then V4(b[12..]) else V6(b)
  }

  /** Text that looks like an address is one. */
  function HostOfText(parseIP: IPText, t: Bytes): Host {
    if parseIP(t).Some? then parseIP(t).value else Domain(t)
  }

  /** A host that text alone can name. */
  predicate Nameable(parseIP: IPText, h: Host) {
    h.Valid() && (h.Domain? ==> parseIP(h.name).None?)
  }

  /** net.Addr: a UDP address, or one known by its text. */
  datatype NetAddr = IPAddr(ip: Host, port: nat) | Text(text: Bytes) {
    predicate Valid() {
      IPAddr? ==> ip.Valid() && !ip.Domain? && port < 0x1_0000
    }
  }

  datatype SocksError = ShortDatagram | Fragment | ShortV4 | ShortV6 | ShortDomain | BadType

  datatype Datagram = Datagram(host: Host, port: nat, payload: Bytes)

  datatype SocksResult = SocksOk(value: Datagram) | SocksErr(error: SocksError)

  // ---- SOCKS ----

  function SocksAddress(h: Host): Bytes
    requires h.Valid()
  {
    match h
    case V4(ip) => [0x01] + ip
    case V6(ip) => [0x04] + ip
    case Domain(name) => var cut := if |name| > 255 then name[..255] else name; [0x03, |cut|] + cut
  }

  /** uint16 of strconv.Atoi with its error ignored. */
  function LoosePort(s: Bytes): (p: nat)
    ensures p < 0x1_0000
  {
    Atoi(s).value % 0x1_0000
  }

  /** The host and port encodeSOCKSUDP takes from an address; text that cannot be split gives neither. */
  function SocksTarget(parseIP: IPText, a: NetAddr): (Host, nat) {
    match a
    case IPAddr(h, port) => (h, port)
    case Text(t) =>
      match SplitAt(t)
      case None => (HostOfText(parseIP, []), 0)
      case Some((h, ps)) => (HostOfText(parseIP, h), LoosePort(ps))
  }

  /** A port text that is a number is taken modulo 2^16, and any other is zero. */
  lemma LoosePorts(digits: Bytes)
    requires digits != [] && IsDigit(digits[0])
    ensures Digits(digits).Some? && Digits(digits).value <= 0x7FFF_FFFF_FFFF_FFFF ==>
      LoosePort(digits) == Digits(digits).value % 0x1_0000
    ensures Digits(digits).None? && !Overflows(digits) ==> LoosePort(digits) == 0
    ensures LoosePort([]) == 0
  {
    hide Digits, Overflows;
    ScanIs(digits);
  }

  function SocksWire(parseIP: IPText, a: NetAddr, payload: Bytes): Bytes
    requires Lawful(parseIP) && a.Valid()
  {
    var (h, port) := SocksTarget(parseIP, a);
    [0, 0, 0] + SocksAddress(h) + U16(port) + payload
  }

  method EncodeSOCKSUDP(parseIP: IPText, a: NetAddr, payload: Bytes) returns (b: Bytes)
    requires Lawful(parseIP) && a.Valid()
    ensures b == SocksWire(parseIP, a, payload)
  {
    hide LoosePort, SplitAt;
    var host := HostOfText(parseIP, []);
    var port: nat := 0;
    match a {
      case IPAddr(h, p) =>
        host, port := h, p;
      case Text(t) =>
        var hp := SplitAt(t);
        if hp.Some? {
          host, port := HostOfText(parseIP, hp.value.0), LoosePort(hp.value.1);
        }
    }
    b := [0, 0, 0];
    match host {
      case V4(ip) => b := b + ([0x01] + ip);
      case V6(ip) => b := b + ([0x04] + ip);
      case Domain(name) =>
        var cut := name;
        if |cut| > 255 {
          cut := cut[..255];
        }
        b := b + ([0x03, |cut|] + cut);
    }
    b := b + U16(port);
    b := b + payload;
  }

  /** The host of a request and where its port starts. */
  function SocksHost(parseIP: IPText, b: Bytes): Option<(Host, nat)>
    requires |b| >= 4
  {
    if b[3] == 0x01 then if |b| < 10 then None else Some((V4(b[4..8]), 8))
    else if b[3] == 0x04 then if |b| < 22 then None else Some((Canon16(b[4..20]), 20))
    else if b[3] == 0x03 then
      if |b| < 5 || |b| < 5 + b[4] as int + 2 then None
      else Some((HostOfText(parseIP, b[5..5 + b[4] as int]), 5 + b[4] as int))
    else None
  }

  function SocksParsed(parseIP: IPText, b: Bytes): SocksResult {
    if |b| < 4 then SocksErr(ShortDatagram)
    else if b[2] != 0 then SocksErr(Fragment)
    else match SocksHost(parseIP, b)
      case None => SocksErr(if b[3] == 0x01 then ShortV4 else if b[3] == 0x04 then ShortV6
                            else if b[3] == 0x03 then ShortDomain else BadType)
      case Some((h, off)) => if off + 2 > |b| then SocksErr(ShortDatagram)
                             else SocksOk(Datagram(h, GetU16(b, off), b[off + 2..]))
  }

  method ParseSOCKSUDP(parseIP: IPText, b: Bytes) returns (r: SocksResult)
    ensures r == SocksParsed(parseIP, b)
  {
    if |b| < 4 {
      return SocksErr(ShortDatagram);
    }
    if b[2] != 0 {
      return SocksErr(Fragment);
    }
    var off: nat := 3;
    var host;
    if b[off] == 0x01 {
      if |b| < off + 1 + 4 + 2 {
        return SocksErr(ShortV4);
      }
      host := V4(b[off + 1..off + 1 + 4]);
      off := off + 1 + 4;
    } else if b[off] == 0x04 {
      if |b| < off + 1 + 16 + 2 {
        return SocksErr(ShortV6);
      }
      host := Canon16(b[off + 1..off + 1 + 16]);
      off := off + 1 + 16;
    } else if b[off] == 0x03 {
      if |b| < off + 2 {
        return SocksErr(ShortDomain);
      }
      var n: nat := b[off + 1];
      if |b| < off + 2 + n + 2 {
        return SocksErr(ShortDomain);
      }
      host := HostOfText(parseIP, b[off + 2..off + 2 + n]);
      off := off + 2 + n;
    } else {
      return SocksErr(BadType);
    }
    return SocksOk(Datagram(host, GetU16(b, off), b[off + 2..]));
  }

  /** Whatever host text can name, the client reads back the host, port and payload it was sent. */
  lemma SocksRoundTrip(parseIP: IPText, h: Host, port: nat, payload: Bytes)
    requires Nameable(parseIP, h) && port < 0x1_0000 && (h.Domain? ==> |h.name| <= 255)
    ensures SocksParsed(parseIP, [0, 0, 0] + SocksAddress(h) + U16(port) + payload)
         == SocksOk(Datagram(h, port, payload))
  {
    hide GetU16, U16;
    var addr := SocksAddress(h);
    var b := [0, 0, 0] + addr + U16(port) + payload;
    assert |U16(port)| == 2 by { TwoBytes(port); }
    U16RoundTrip([0, 0, 0] + addr, port, payload);
    Middle([0, 0, 0] + addr, U16(port), payload);
    HostFound(parseIP, h, U16(port) + payload);
    Assoc([0, 0, 0] + addr, U16(port), payload);
    assert b[2] == 0;
  }

  lemma TwoBytes(port: nat)
    requires port < 0x1_0000
    ensures |U16(port)| == 2
  {
  }

  /** The host stands before whatever follows it, if that has room for a port. */
  lemma HostFound(parseIP: IPText, h: Host, rest: Bytes)
    requires Nameable(parseIP, h) && (h.Domain? ==> |h.name| <= 255) && |rest| >= 2
    ensures SocksHost(parseIP, [0, 0, 0] + SocksAddress(h) + rest) == Some((h, 3 + |SocksAddress(h)|))
  {
    hide SocksHost;
    var b := [0, 0, 0] + SocksAddress(h) + rest;
    match h {
      case V4(ip) =>
        assert b == [0, 0, 0, 0x01] + ip + rest;
        FixedFound(parseIP, 0x01, ip, rest);
      case V6(ip) =>
        assert b == [0, 0, 0, 0x04] + ip + rest;
        FixedFound(parseIP, 0x04, ip, rest);
      case Domain(n) =>
        assert b == [0, 0, 0, 0x03, |n|] + n + rest;
        DomainFound(parseIP, n, rest);
    }
  }

  lemma FixedFound(parseIP: IPText, typ: byte, ip: Bytes, rest: Bytes)
    requires (typ == 0x01 && |ip| == 4) || (typ == 0x04 && |ip| == 16)
    requires |rest| >= 2
    ensures SocksHost(parseIP, [0, 0, 0, typ] + ip + rest) ==
      Some((if typ == 0x01 then V4(ip) else Canon16(ip), 4 + |ip|))
  {
    Middle([0, 0, 0, typ], ip, rest);
  }

  lemma DomainFound(parseIP: IPText, n: Bytes, rest: Bytes)
    requires |n| <= 255 && |rest| >= 2
    ensures SocksHost(parseIP, [0, 0, 0, 0x03, |n|] + n + rest) == Some((HostOfText(parseIP, n), 5 + |n|))
  {
    hide HostOfText;
    Middle([0, 0, 0, 0x03, |n|], n, rest);
  }

  /** A SOCKS datagram as a client written from the standard sends it: two reserved bytes, no fragment, the type of
      the address, the address (a domain with its length), the port, the payload. */
  function ClientSends(h: Host, port: nat, payload: Bytes): Bytes
    requires h.Valid() && (h.Domain? ==> |h.name| <= 255) && port < 0x1_0000
  {
    [0, 0, 0] + (match h
                 case V4(ip) => [1] + ip
                 case V6(ip) => [4] + ip
                 case Domain(name) => [3, |name|] + name) + [port / 256, port % 256] + payload
  }

  /** What such a client sends is read as it was meant, and what is sent to it is what it would send itself. */
  lemma ClientUnderstood(parseIP: IPText, h: Host, port: nat, payload: Bytes)
    requires Nameable(parseIP, h) && port < 0x1_0000 && (h.Domain? ==> |h.name| <= 255)
    ensures SocksParsed(parseIP, ClientSends(h, port, payload)) == SocksOk(Datagram(h, port, payload))
    ensures [0, 0, 0] + SocksAddress(h) + U16(port) + payload == ClientSends(h, port, payload)
  {
    hide SocksParsed;
    SocksRoundTrip(parseIP, h, port, payload);
  }

  /** Which byte strings are read at all: whole, unfragmented, with a known type of address and room for it and for a
      port. */
  lemma SocksAccepts(parseIP: IPText, b: Bytes)
    ensures SocksParsed(parseIP, b).SocksOk? <==>
      && |b| >= 4 && b[2] == 0
      && ((b[3] == 1 && |b| >= 10) || (b[3] == 4 && |b| >= 22) || (b[3] == 3 && |b| >= 5 && |b| >= 7 + b[4] as int))
  {
    hide Canon16, HostOfText;
  }

  /** Which answers of a server are read. */
  lemma ResponseAccepts(pkt: Bytes)
    ensures ParseUDPResponse(pkt).Some? <==>
      |pkt| >= 1 && ((pkt[0] == 4 && |pkt| >= 7) || (pkt[0] == 6 && |pkt| >= 19))
  {
  }

  /** A longer domain cannot be named: it is cut to 255 bytes, and the client reads the cut text. */
  lemma SocksCuts(parseIP: IPText, name: Bytes, port: nat, payload: Bytes)
    requires port < 0x1_0000 && |name| > 255 && Lawful(parseIP)
    ensures var r := SocksParsed(parseIP, [0, 0, 0] + SocksAddress(Domain(name)) + U16(port) + payload);
      r == SocksOk(Datagram(HostOfText(parseIP, name[..255]), port, payload)) && r.value.host != Domain(name)
  {
    var cut := name[..255];
    var addr := SocksAddress(Domain(name));
    var b := [0, 0, 0] + addr + U16(port) + payload;
    U16RoundTrip([0, 0, 0] + addr, port, payload);
    Middle([0, 0, 0] + addr, U16(port), payload);
    assert b == [0, 0, 0, 0x03, |cut|] + cut + (U16(port) + payload);
    Middle([0, 0, 0, 0x03, |cut|], cut, U16(port) + payload);
  }

  // ---- Snell ----

  const CMD_UDP_FORWARD: byte := 1

  datatype RequestError = PayloadTooLarge | BadHost

  datatype RequestResult = Request(wire: Bytes) | Refused(error: RequestError)

  function RequestAddress(h: Host): Bytes
    requires h.Valid() && (h.Domain? ==> |h.name| < 256)
  {
    match h
    case V4(ip) => [0x00, 0x04] + ip
    case V6(ip) => [0x00, 0x06] + ip
    case Domain(name) => [|name|] + name
  }

  predicate HostAccepted(h: Host) {
    h.Valid() && (h.Domain? ==> 0 < |h.name| <= 255)
  }

  function RequestWire(h: Host, port: nat, payload: Bytes): Bytes
    requires HostAccepted(h) && port < 0x1_0000
  {
    [CMD_UDP_FORWARD] + RequestAddress(h) + U16(port) + payload
  }

  method EncodeUDPRequest(h: Host, port: nat, payload: Bytes) returns (r: RequestResult)
    requires h.Valid() && port < 0x1_0000
    ensures |payload| > MAX_PAYLOAD - 32 ==> r == Refused(PayloadTooLarge)
    ensures |payload| <= MAX_PAYLOAD - 32 ==>
      r == if HostAccepted(h) then Request(RequestWire(h, port, payload)) else Refused(BadHost)
  {
    if |payload| > MAX_PAYLOAD - 32 {
      return Refused(PayloadTooLarge);
    }
    var buf := [CMD_UDP_FORWARD];
    match h {
      case V4(ip) => buf := buf + ([0x00, 0x04] + ip);
      case V6(ip) => buf := buf + ([0x00, 0x06] + ip);
      case Domain(name) =>
        if |name| == 0 || |name| > 255 {
          return Refused(BadHost);
        }
        buf := buf + ([|name|] + name);
    }
    buf := buf + U16(port);
    buf := buf + payload;
    return Request(buf);
  }

  /** What a server written from the format makes of a request: command 1, a domain with its length or a zero and an
      address family, the port, the payload. */
  function DecodeRequest(b: Bytes): Option<Datagram> {
    if |b| < 3 || b[0] != 1 then None
    else if b[1] == 0 then
      if b[2] == 4 && |b| >= 9 then Some(Datagram(V4(b[3..7]), 256 * b[7] as int + b[8], b[9..]))
      else if b[2] == 6 && |b| >= 21 then Some(Datagram(V6(b[3..19]), 256 * b[19] as int + b[20], b[21..]))
      else None
    else
      var n: nat := b[1];
      if |b| < 4 + n then None
      else Some(Datagram(Domain(b[2..2 + n]), 256 * b[2 + n] as int + b[3 + n], b[4 + n..]))
  }

  /** The server gets the destination, port and payload that were asked for. */
  lemma RequestRoundTrip(h: Host, port: nat, payload: Bytes)
    requires HostAccepted(h) && port < 0x1_0000
    ensures DecodeRequest(RequestWire(h, port, payload)) == Some(Datagram(h, port, payload))
  {
    var addr := RequestAddress(h);
    var b := RequestWire(h, port, payload);
    U16RoundTrip([CMD_UDP_FORWARD] + addr, port, payload);
    assert b[0] == CMD_UDP_FORWARD && b[1] == addr[0];
    assert b[1 + |addr| + 2..] == payload;
    match h {
      case V4(ip) =>
        assert b[2] == addr[1];
        assert b[3..7] == ip;
      case V6(ip) =>
        assert b[2] == addr[1];
        assert b[3..19] == ip;
      case Domain(name) => assert b[2..2 + |name|] == name;
    }
  }

  /** A request to an IP address always fits one frame; one to a domain does for every accepted payload if and
      only if the domain has at most 28 bytes. */
  lemma RequestFits(h: Host, port: nat)
    requires HostAccepted(h) && port < 0x1_0000
    ensures !h.Domain? ==> forall p: Bytes :: |p| <= MAX_PAYLOAD - 32 ==> |RequestWire(h, port, p)| <= MAX_PAYLOAD
    ensures h.Domain? ==>
      ((forall p: Bytes :: |p| <= MAX_PAYLOAD - 32 ==> |RequestWire(h, port, p)| <= MAX_PAYLOAD) <==> |h.name| <= 28)
  {
    if h.Domain? && |h.name| > 28 {
      var p := Repeat(MAX_PAYLOAD - 32, 0);
      assert |p| <= MAX_PAYLOAD - 32 && |RequestWire(h, port, p)| > MAX_PAYLOAD;
    }
  }

  /** parseUDPResponse: an address, a port, a payload. */
  function ParseUDPResponse(pkt: Bytes): Option<Datagram> {
    if |pkt| < 1 then None
    else if pkt[0] == 0x04 then
      if |pkt| < 7 then None else Some(Datagram(V4(pkt[1..5]), GetU16(pkt, 5), pkt[7..]))
    else if pkt[0] == 0x06 then
      if |pkt| < 19 then None else Some(Datagram(Canon16(pkt[1..17]), GetU16(pkt, 17), pkt[19..]))
    else None
  }

  /** A server's answer from an address of four or sixteen bytes. */
  function ResponseWire(ip: Bytes, port: nat, payload: Bytes): Bytes
    requires (|ip| == 4 || |ip| == 16) && port < 0x1_0000
  {
    [if |ip| == 4 then 4 else 6] + ip + [port / 256, port % 256] + payload
  }

  function HostOfIP(ip: Bytes): (h: Host)
    requires |ip| == 4 || |ip| == 16
    ensures h.Valid() && !h.Domain?
  {
    if |ip| == 4 then V4(ip) else Canon16(ip)
  }

  lemma ResponseRoundTrip(ip: Bytes, port: nat, payload: Bytes)
    requires (|ip| == 4 || |ip| == 16) && port < 0x1_0000
    ensures ParseUDPResponse(ResponseWire(ip, port, payload)) == Some(Datagram(HostOfIP(ip), port, payload))
  {
    var b := ResponseWire(ip, port, payload);
    var tag: Bytes := [if |ip| == 4 then 0x04 else 0x06];
    U16RoundTrip(tag + ip, port, payload);
    assert b[1..1 + |ip|] == ip && b[3 + |ip|..] == payload;
  }

  // ---- destinations as text ----

  /** The address the hub gives a datagram: a UDP address, or a socksHostAddr known by its text. */
  function DestAddr(h: Host, port: nat): NetAddr {
    if h.Domain? then Text(Join(h.name, Decimal(port))) else IPAddr(h, port)
  }

  /** addrHostPort, and the parsing of the host it gives. */
  function Destination(parseIP: IPText, a: NetAddr): Option<(Host, nat)> {
    match a
    case IPAddr(h, port) => Some((h, port))
    case Text(t) =>
      match SplitAt(t)
      case None => None
      case Some((h, ps)) => if PortOf(ps).None? then None else Some((HostOfText(parseIP, h), PortOf(ps).value))
  }

  lemma DestinationValid(parseIP: IPText, a: NetAddr)
    requires Lawful(parseIP) && a.Valid()
    ensures Destination(parseIP, a).Some? ==>
      Destination(parseIP, a).value.0.Valid() && Destination(parseIP, a).value.1 < 0x1_0000
  {
    hide SplitAt;
  }

  /** Which destination survives its way through text: every IP address, and a domain if and only if it holds no
      bracket. A domain wrapped in brackets becomes what is inside them, and any other with a bracket is refused. */
  lemma DestinationOf(parseIP: IPText, h: Host, port: nat)
    requires Lawful(parseIP) && Nameable(parseIP, h) && port < 0x1_0000
    ensures Destination(parseIP, DestAddr(h, port)) ==
      if h.Domain? && !Bracketless(h.name) then
        if Wrapped(h.name) then Some((HostOfText(parseIP, h.name[1..|h.name| - 1]), port)) else None
      else Some((h, port))
    ensures Destination(parseIP, DestAddr(h, port)) == Some((h, port)) <==> (h.Domain? ==> Bracketless(h.name))
  {
    hide SplitAt, PortOf;
    if h.Domain? {
      DecimalPlain(port);
      JoinSplit(h.name, Decimal(port));
      PortRoundTrip(port);
    }
  }

  /** An address known by its text goes into a SOCKS datagram as the host and port it was made from, unless the host
      holds a bracket; text that cannot be split is no host and port zero. */
  lemma TargetOf(parseIP: IPText, h: Host, port: nat, t: Bytes)
    requires Lawful(parseIP) && Nameable(parseIP, h) && port < 0x1_0000 && (h.Domain? ==> Bracketless(h.name))
    ensures SocksTarget(parseIP, DestAddr(h, port)) == (h, port)
    ensures SplitAt(t).None? ==> SocksTarget(parseIP, Text(t)) == (HostOfText(parseIP, []), 0)
  {
    hide SplitAt, Digits, Decimal, LoosePort, Overflows;
    if h.Domain? {
      DecimalPlain(port);
      JoinSplit(h.name, Decimal(port));
      DigitsOf(port);
      LoosePorts(Decimal(port));
    }
  }

  // ---- both ways through the relay ----

  /** What WriteTo sends for a payload to an address, if anything. */
  function Forwarded(parseIP: IPText, a: NetAddr, payload: Bytes): Option<Bytes>
    requires Lawful(parseIP) && a.Valid()
  {
    DestinationValid(parseIP, a);
    var d := Destination(parseIP, a);
    if d.Some? && HostAccepted(d.value.0) && |payload| <= MAX_PAYLOAD - 32 then
      Some(RequestWire(d.value.0, d.value.1, payload))
    else None
  }

  /** Whether a datagram can be relayed unchanged: its payload is within the limit, its destination is an IP address
      or a domain that is not empty and holds no bracket, and a domain fits one frame with the payload. */
  predicate Relayable(d: Datagram) {
    && |d.payload| <= MAX_PAYLOAD - 32
    && (d.host.Domain? ==>
      d.host.name != [] && Bracketless(d.host.name) && |d.host.name| + 4 + |d.payload| <= MAX_PAYLOAD)
  }

  lemma RequestLength(h: Host, port: nat, payload: Bytes)
    requires HostAccepted(h) && port < 0x1_0000
    ensures |RequestWire(h, port, payload)| ==
      (match h case V4(_) => 9 case V6(_) => 21 case Domain(name) => |name| + 4) + |payload|
  {
  }

  /** Client to server: what the hub parses reaches the server in one frame, with its destination, port and payload,
      if and only if it is relayable. */
  lemma RelayUp(parseIP: IPText, b: Bytes)
    requires Lawful(parseIP) && SocksParsed(parseIP, b).SocksOk?
    ensures var d := SocksParsed(parseIP, b).value;
      && d.host.Valid() && DestAddr(d.host, d.port).Valid()
      && var wire := Forwarded(parseIP, DestAddr(d.host, d.port), d.payload);
        (wire.Some? && |wire.value| <= MAX_PAYLOAD && DecodeRequest(wire.value) == Some(d)) <==> Relayable(d)
  {
    hide DecodeRequest, RequestWire, Destination;
    ParsedDatagram(parseIP, b);
    hide SocksParsed;
    var d := SocksParsed(parseIP, b).value;
    var a := DestAddr(d.host, d.port);
    DestinationOf(parseIP, d.host, d.port);
    DestinationValid(parseIP, a);
    var wire := Forwarded(parseIP, a, d.payload);
    if wire.Some? {
      var (h, port) := Destination(parseIP, a).value;
      RequestRoundTrip(h, port, d.payload);
      RequestLength(h, port, d.payload);
    }
  }

  lemma ParsedDatagram(parseIP: IPText, b: Bytes)
    requires Lawful(parseIP) && SocksParsed(parseIP, b).SocksOk?
    ensures var d := SocksParsed(parseIP, b).value;
      Nameable(parseIP, d.host) && d.port < 0x1_0000 && (d.host.Domain? ==> |d.host.name| <= 255)
  {
  }

  const TEN_IN_BRACKETS: Bytes := [91, 49, 48, 46, 48, 46, 48, 46, 49, 93]

  /** A witness: the domain "[10.0.0.1]", which is no address, is sent as the address 10.0.0.1. */
  lemma BracketsChange(parseIP: IPText, port: nat, payload: Bytes)
    requires Lawful(parseIP) && port < 0x1_0000 && |payload| <= MAX_PAYLOAD - 32
    requires parseIP(TEN_IN_BRACKETS) == None && parseIP([49, 48, 46, 48, 46, 48, 46, 49]) == Some(V4([10, 0, 0, 1]))
    ensures var wire := Forwarded(parseIP, DestAddr(Domain(TEN_IN_BRACKETS), port), payload);
      wire.Some? && DecodeRequest(wire.value) == Some(Datagram(V4([10, 0, 0, 1]), port, payload))
  {
    hide DecodeRequest, RequestWire, Destination;
    assert TEN_IN_BRACKETS[1..9] == [49, 48, 46, 48, 46, 48, 46, 49];
    DestinationOf(parseIP, Domain(TEN_IN_BRACKETS), port);
    RequestRoundTrip(V4([10, 0, 0, 1]), port, payload);
  }

  /** Server to client: the client reads the address the server gave (a mapped one as IPv4), its port and the
      payload. */
  lemma RelayDown(parseIP: IPText, ip: Bytes, port: nat, payload: Bytes)
    requires Lawful(parseIP) && (|ip| == 4 || |ip| == 16) && port < 0x1_0000
    ensures var d := ParseUDPResponse(ResponseWire(ip, port, payload));
      && d.Some? && IPAddr(d.value.host, d.value.port).Valid()
      && SocksParsed(parseIP, SocksWire(parseIP, IPAddr(d.value.host, d.value.port), d.value.payload))
           == SocksOk(Datagram(HostOfIP(ip), port, payload))
  {
    hide SocksParsed, SocksAddress, ParseUDPResponse, ResponseWire;
    ResponseRoundTrip(ip, port, payload);
    SocksRoundTrip(parseIP, HostOfIP(ip), port, payload);
  }
}
