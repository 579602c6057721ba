/** A Snell session seen from its holder, at the level of stream symbols: the reply that precedes the
    data, and what one Read may return. */
module SnellLink {
  import opened Bytes
  import opened SnellFrame

  const CMD_PING: byte := 0
  const CMD_CONNECT: byte := 1
  const CMD_CONNECT_V2: byte := 5
  const CMD_TUNNEL: byte := 0
  const CMD_PONG: byte := 1
  const CMD_ERROR: byte := 2
  const HEADER_VERSION: byte := 1

  /** The reply and peer-closed flags, and all the symbols still to be read. */
  datatype Link = Link(reply: bool, peerClosed: bool, input: seq<Sym>)

  /** The outcome of taking exactly `n` data bytes off a stream. */
  datatype Taken = Whole(data: Bytes, rest: seq<Sym>) | CutByZero(rest: seq<Sym>) | CutByEnd

  function TakeBytes(n: nat, s: seq<Sym>): (t: Taken)
    ensures t.Whole? ==> |t.data| == n
    decreases n
  {
    if n == 0 then Whole([], s)
    else if s == [] then CutByEnd
    else if s[0].Zero? then CutByZero(s[1..])
    else match TakeBytes(n - 1, s[1..])
      case Whole(d, rest) => Whole([s[0].b] + d, rest)
      case cut => cut
  }

  lemma {:induction false} TakeData(d: Bytes, rest: seq<Sym>)
    ensures TakeBytes(|d|, Data(d) + rest) == Whole(d, rest)
  {
    if d == [] {
      assert Data(d) + rest == rest;
    } else {
      assert (Data(d) + rest)[1..] == Data(d[1..]) + rest;
      TakeData(d[1..], rest);
      assert [d[0]] + d[1..] == d;
    }
  }

  lemma {:induction false} TakeCut(n: nat, d: Bytes, rest: seq<Sym>)
    requires |d| < n && (rest == [] || rest[0].Zero?)
    ensures TakeBytes(n, Data(d) + rest) == if rest == [] then CutByEnd else CutByZero(rest[1..])
  {
    if d == [] {
      assert Data(d) + rest == rest;
    } else {
      assert (Data(d) + rest)[1..] == Data(d[1..]) + rest;
      TakeCut(n - 1, d[1..], rest);
    }
  }

  /** What the peer answered. */
  datatype Reply = Accepted | Refused(code: byte, msg: Bytes) | Unexpected(cmd: byte) | Broken

  /** A reply, whether its command byte came, and the symbols after it; None when the stream broke off, after
      which nothing is said of what follows. */
  datatype ReplyRead = ReplyRead(reply: Reply, seen: bool, rest: Option<seq<Sym>>)

  function AfterCut(seen: bool, cut: Taken): ReplyRead
    requires !cut.Whole?
  {
    ReplyRead(Broken, seen, if cut.CutByZero? then Some(cut.rest) else None)
  }

  /** What follows the command byte of an error reply: a code, a length, a message. */
  function RefusalOf(s: seq<Sym>): (r: ReplyRead)
    ensures r.seen && (!r.reply.Broken? ==> r.reply.Refused? && r.rest.Some?)
  {
    match TakeBytes(2, s)
    case Whole(head, s2) => (
      match TakeBytes(head[1], s2)
      case Whole(msg, s3) => ReplyRead(Refused(head[0], msg), true, Some(s3))
      case cut => AfterCut(true, cut))
    case cut => AfterCut(true, cut)
  }

  /** The reply at the head of a stream and the symbols after it. */
  function ReplyOf(s: seq<Sym>): (r: ReplyRead)
    ensures !r.reply.Broken? ==> r.seen && r.rest.Some?
  {
    match TakeBytes(1, s)
    case Whole(cmd, s1) =>
      if cmd[0] == CMD_TUNNEL then ReplyRead(Accepted, true, Some(s1))
      else if cmd[0] != CMD_ERROR then ReplyRead(Unexpected(cmd[0]), true, Some(s1))
      else RefusalOf(s1)
    case cut => AfterCut(false, cut)
  }

  /** A reply as a server sends it: 0 opens the tunnel; 2, a code and a message with its length refuse it; any
      other byte is no reply. Each is consumed exactly, and the data behind it is untouched. */
  lemma RepliesUnderstood(code: byte, msg: Bytes, other: byte, rest: seq<Sym>)
    requires |msg| < 256 && other != 0 && other != 2
    ensures ReplyOf(Data([0]) + rest) == ReplyRead(Accepted, true, Some(rest))
    ensures ReplyOf(Data([2, code, |msg|] + msg) + rest) == ReplyRead(Refused(code, msg), true, Some(rest))
    ensures ReplyOf(Data([other]) + rest) == ReplyRead(Unexpected(other), true, Some(rest))
  {
    hide TakeBytes;
    TakeData([0], rest);
    TakeData([other], rest);
    RefusalUnderstood(code, msg, rest);
  }

  lemma RefusalUnderstood(code: byte, msg: Bytes, rest: seq<Sym>)
    requires |msg| < 256
    ensures ReplyOf(Data([2, code, |msg|] + msg) + rest) == ReplyRead(Refused(code, msg), true, Some(rest))
  {
    hide TakeBytes, Data;
    var tail := Data(msg) + rest;
    var head := Data([code, |msg|]) + tail;
    DataConcat([2], [code, |msg|]);
    DataConcat([2] + [code, |msg|], msg);
    assert [2] + [code, |msg|] == [2, code, |msg|];
    Assoc(Data([2, code, |msg|]), Data(msg), rest);
    Assoc(Data([2]), Data([code, |msg|]), tail);
    TakeData([2], head);
    TakeData([code, |msg|], tail);
    TakeData(msg, rest);
  }

  lemma ReplyAccepted(rest: seq<Sym>)
    ensures ReplyOf([B(CMD_TUNNEL)] + rest) == ReplyRead(Accepted, true, Some(rest))
  {
    TakeData([CMD_TUNNEL], rest);
    assert Data([CMD_TUNNEL]) == [B(CMD_TUNNEL)];
  }

  datatype ReadOutcome = Received(data: Bytes) | EndOfStream | ReadError

  /** Where the data of the stream starts. */
  predicate Answered(l: Link) {
    l.reply || ReplyOf(l.input).reply.Accepted?
  }

  function DataInput(l: Link): seq<Sym>
    requires Answered(l)
  {
    if l.reply then l.input else ReplyOf(l.input).rest.value
  }

  /** One Read of at most `size` bytes, whatever the chunk boundaries. */
  predicate ReadStep(l: Link, size: nat, r: ReadOutcome, m: Link) {
    if !Answered(l) then
      var q := ReplyOf(l.input);
      && r == ReadError && m.peerClosed == l.peerClosed && m.reply == q.seen
      && (q.rest.Some? ==> m.input == q.rest.value)
    else match r
      case Received(d) =>
        && |d| <= size && (size > 0 ==> d != [])
        && DataInput(l) == Data(d) + m.input && m.reply && m.peerClosed == l.peerClosed
      case EndOfStream =>
        DataInput(l) == [Zero] + m.input && m.reply && m.peerClosed
      case ReadError => DataInput(l) == [] && m.peerClosed == l.peerClosed
  }

  // ---- requests, as a server reads them ----

  /** What a CONNECT asks for. */
  datatype Asked = Asked(host: Bytes, port: nat, reuse: bool)

  /** Version 1; command 1 for one session, 5 for one of several on the transport; no client identifier; the host
      with its length; the port, high byte first. */
  function ServerConnect(b: Bytes): Option<Asked> {
    if |b| < 6 || b[0] != 1 || (b[1] != 1 && b[1] != 5) || b[2] != 0 || |b| != 6 + b[3] as int then None
    else
      var n: nat := b[3];
      Some(Asked(b[4..4 + n], 256 * b[4 + n] as int + b[5 + n], b[1] == 5))
  }
}
