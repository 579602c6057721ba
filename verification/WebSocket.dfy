/** WebSocket framing (sections 5.2 and 5.3 of RFC 6455) as this client writes and reads it. */
module WebSocket {
  import opened Bytes
  import opened Net

  const MAX_FRAME := 0x10_0000

  type Mask = m: Bytes | |m| == 4 witness [0, 0, 0, 0]

  // ---- masking ----

  /** Exclusive or of the low `n` bits. */
  function Xor(a: nat, b: nat, n: nat): (r: nat)
    ensures r < Pow2(n)
  {
    if n == 0 then 0 else (if a % 2 == b % 2 then 0 else 1) + 2 * Xor(a / 2, b / 2, n - 1)
  }

  lemma LowBit(bit: nat, high: nat)
    requires bit < 2
    ensures (bit + 2 * high) % 2 == bit && (bit + 2 * high) / 2 == high
  {
  }

  lemma {:induction false} XorTwice(a: nat, b: nat, n: nat)
    requires a < Pow2(n)
    ensures Xor(Xor(a, b, n), b, n) == a
  {
    if n > 0 {
      LowBit(if a % 2 == b % 2 then 0 else 1, Xor(a / 2, b / 2, n - 1));
      XorTwice(a / 2, b / 2, n - 1);
    }
  }

  function XorByte(a: byte, b: byte): byte {
    EightBits();
    Xor(a, b, 8)
  }

  lemma EightBits()
    ensures Pow2(8) == 256
  {
    assert Pow2(8) == 2 * Pow2(7) && Pow2(7) == 2 * Pow2(6) && Pow2(6) == 2 * Pow2(5) && Pow2(5) == 2 * Pow2(4);
  }

  /** Bit `k` of the result is 1 exactly when the bits of the two differ there. */
  lemma {:induction false} XorBit(a: nat, b: nat, n: nat, k: nat)
    requires k < n
    ensures Xor(a, b, n) / Pow2(k) % 2 == if a / Pow2(k) % 2 != b / Pow2(k) % 2 then 1 else 0
  {
    LowBit(if a % 2 == b % 2 then 0 else 1, Xor(a / 2, b / 2, n - 1));
    if k > 0 {
      XorBit(a / 2, b / 2, n - 1, k - 1);
      DivDiv(a, Pow2(k - 1));
      DivDiv(b, Pow2(k - 1));
      DivDiv(Xor(a, b, n), Pow2(k - 1));
    }
  }

  /** The exclusive or of two bytes, bit by bit. */
  lemma XorBits(a: byte, b: byte)
    ensures var x := XorByte(a, b);
      && (x % 2 == 1 <==> a % 2 != b % 2) && (x / 2 % 2 == 1 <==> a / 2 % 2 != b / 2 % 2)
      && (x / 4 % 2 == 1 <==> a / 4 % 2 != b / 4 % 2) && (x / 8 % 2 == 1 <==> a / 8 % 2 != b / 8 % 2)
      && (x / 16 % 2 == 1 <==> a / 16 % 2 != b / 16 % 2) && (x / 32 % 2 == 1 <==> a / 32 % 2 != b / 32 % 2)
      && (x / 64 % 2 == 1 <==> a / 64 % 2 != b / 64 % 2) && (x / 128 % 2 == 1 <==> a / 128 % 2 != b / 128 % 2)
  {
    hide Xor;
    XorBit(a, b, 8, 0);
    XorBit(a, b, 8, 1);
    XorBit(a, b, 8, 2);
    XorBit(a, b, 8, 3);
    XorBit(a, b, 8, 4);
    XorBit(a, b, 8, 5);
    XorBit(a, b, 8, 6);
    XorBit(a, b, 8, 7);
    Powers();
  }

  lemma Powers()
    ensures Pow2(0) == 1 && Pow2(1) == 2 && Pow2(2) == 4 && Pow2(3) == 8
    ensures Pow2(4) == 16 && Pow2(5) == 32 && Pow2(6) == 64 && Pow2(7) == 128
  {
  }

  function Masked(p: Bytes, mask: Mask): (r: Bytes)
    ensures |r| == |p|
  {
    seq(|p|, i requires 0 <= i < |p| => XorByte(p[i], mask[i % 4]))
  }

  lemma MaskTwice(p: Bytes, mask: Mask)
    ensures Masked(Masked(p, mask), mask) == p
  {
    hide XorByte;
    forall i | 0 <= i < |p|
      ensures XorByte(XorByte(p[i], mask[i % 4]), mask[i % 4]) == p[i]
    {
      ByteTwice(p[i], mask[i % 4]);
    }
  }

  /** A zero mask changes nothing. */
  lemma ZeroMask(p: Bytes)
    ensures Masked(p, [0, 0, 0, 0]) == p
  {
    hide XorByte;
    forall i | 0 <= i < |p|
      ensures XorByte(p[i], 0) == p[i]
    {
      XorZero(p[i]);
    }
    assert forall i :: 0 <= i < |p| ==> [0, 0, 0, 0][i % 4] == 0;
  }

  lemma XorZero(a: byte)
    ensures XorByte(a, 0) == a
  {
    hide Xor;
    EightBits();
    XorNothing(a, 8);
  }

  lemma {:induction false} XorNothing(a: nat, n: nat)
    requires a < Pow2(n)
    ensures Xor(a, 0, n) == a
  {
    if n > 0 {
      XorNothing(a / 2, n - 1);
    }
  }

  lemma ByteTwice(a: byte, b: byte)
    ensures XorByte(XorByte(a, b), b) == a
  {
    hide Xor;
    EightBits();
    XorTwice(a, b, 8);
  }

  /** The masking loop over a fresh buffer, and the unmasking loop in place. */
  method MaskInPlace(a: array<byte>, mask: Mask)
    modifies a
    ensures a[..] == Masked(old(a[..]), mask)
    ensures forall i :: 0 <= i < a.Length ==> a[i] == XorByte(old(a[i]), mask[i % 4])
  {
    hide XorByte;
    for i := 0 to a.Length
      invariant forall k :: 0 <= k < i ==> a[k] == XorByte(old(a[k]), mask[k % 4])
      invariant forall k :: i <= k < a.Length ==> a[k] == old(a[k])
    {
      a[i] := XorByte(a[i], mask[i % 4]);
    }
  }

  // ---- eight-byte lengths ----

  function BeBytes(len: nat, v: nat): (s: Bytes)
    ensures |s| == len
    decreases len
  {
    if len == 0 then [] else BeBytes(len - 1, v / 256) + [v % 256]
  }

  function BeValue(s: Bytes): nat {
    if s == [] then 0 else BeValue(s[..|s| - 1]) * 256 + s[|s| - 1] as int
  }

  lemma {:induction false} BeRoundTrip(len: nat, v: nat)
    requires v < Pow256(len)
    ensures BeValue(BeBytes(len, v)) == v
    decreases len
  {
    if len > 0 {
      var s := BeBytes(len, v);
      assert s[..len - 1] == BeBytes(len - 1, v / 256);
      BeRoundTrip(len - 1, v / 256);
    }
  }

  // ---- writing ----

  function LengthBytes(n: nat, masked: bool): Bytes {
    var bit := if masked then 128 else 0;
    if n < 126 then [bit + n]
    else if n < 65536 then [bit + 126] + U16(n)
    else [bit + 127] + BeBytes(8, n)
  }

  type Opcode = o: int | 0 <= o < 16

  type Rsv = v: int | 0 <= v < 8

  /** A frame as either side may send it: final or not, any reserved bits, with or without a mask. */
  datatype Frame = Frame(fin: bool, rsv: Rsv, op: Opcode, payload: Bytes, mask: Option<Mask>) {
    predicate Valid() {
      |payload| <= MAX_FRAME
    }

    function First(): byte {
      (if fin then 128 else 0) + 16 * rsv + op
    }

    function Header(): Bytes {
      [First()] + LengthBytes(|payload|, mask.Some?) + (if mask.Some? then mask.value else [])
    }

    function Body(): Bytes {
      if mask.Some? then Masked(payload, mask.value) else payload
    }

    function Wire(): Bytes {
      Header() + Body()
    }
  }

  // ---- reading ----

  datatype ReadError = Short | TooLarge | BadOpcode | Closed

  /** What one frame means to the reader. */
  datatype Event = DataFrame(data: Bytes) | Ping(ping: Bytes) | Pong | Failed(why: ReadError)

  datatype FrameRead = FrameRead(event: Event, rest: Bytes)

  function EventOf(op: Opcode, payload: Bytes): Event {
    if op == 8 then Failed(Closed)
    else if op == 9 then Ping(payload)
    else if op == 10 then Pong
    else if op <= 2 then DataFrame(payload)
    else Failed(BadOpcode)
  }

  /** The payload length in the header and where it ends; None when the header is cut. */
  function LengthOf(s: Bytes): Option<(nat, nat)>
    requires |s| >= 2
  {
    var n := s[1] % 128;
    if n == 126 then if |s| < 4 then None else Some((GetU16(s, 2), 4))
    else if n == 127 then if |s| < 10 then None else Some((BeValue(s[2..10]), 10))
    else Some((n, 2))
  }

  function ReadFrameOf(s: Bytes): (r: FrameRead)
    ensures !r.event.Failed? ==> |r.rest| + 2 <= |s|
  {
    if |s| < 2 then FrameRead(Failed(Short), [])
    else if LengthOf(s).None? then FrameRead(Failed(Short), [])
    else
      var (n, off) := LengthOf(s).value;
      var masked := s[1] >= 128;
      var at := if masked then off + 4 else off;
      if n > MAX_FRAME then FrameRead(Failed(TooLarge), s[off..])
      else if |s| < at + n then FrameRead(Failed(Short), [])
      else
        var body := s[at..at + n];
        FrameRead(EventOf(s[0] % 16, if masked then Masked(body, s[off..at]) else body), s[at + n..])
  }

  lemma LengthRoundTrip(first: byte, n: nat, masked: bool, tail: Bytes)
    requires n < Pow256(8)
    ensures var s := [first] + LengthBytes(n, masked) + tail;
      && LengthOf(s) == Some((n, 1 + |LengthBytes(n, masked)|))
      && (s[1] >= 128 <==> masked) && s[0] == first
  {
    hide BeBytes, BeValue, Pow256;
    var bit := if masked then 128 else 0;
    var s := [first] + LengthBytes(n, masked) + tail;
    if n < 126 {
      assert s[1] == bit + n;
    } else if n < 65536 {
      assert s == [first, bit + 126] + U16(n) + tail;
      U16RoundTrip([first, bit + 126], n, tail);
    } else {
      assert s == [first, bit + 127] + BeBytes(8, n) + tail;
      assert s[2..10] == BeBytes(8, n);
      BeRoundTrip(8, n);
    }
  }

  lemma MaxFits()
    ensures MAX_FRAME < Pow256(8)
  {
    assert Pow256(8) == 256 * Pow256(7) && Pow256(7) == 256 * Pow256(6) && Pow256(6) == 256 * Pow256(5)
      && Pow256(5) == 256 * Pow256(4) && Pow256(4) == 256 * Pow256(3) && Pow256(3) == 256 * Pow256(2);
  }

  /** Reading a written frame gives its payload back, for every payload up to 2^20 bytes, every mask, opcode,
      final bit and reserved bits; a longer payload is refused, whatever it holds. */
  lemma FrameRoundTrip(f: Frame, tail: Bytes)
    requires |f.payload| < Pow256(8)
    ensures f.Valid() ==> ReadFrameOf(f.Wire() + tail) == FrameRead(EventOf(f.op, f.payload), tail)
    ensures !f.Valid() ==> ReadFrameOf(f.Wire() + tail).event == Failed(TooLarge)
  {
    hide LengthOf, LengthBytes, Masked, Pow256, EventOf;
    var n, masked := |f.payload|, f.mask.Some?;
    var len := LengthBytes(n, masked);
    var mask: Bytes := if masked then f.mask.value else [];
    var s := f.Wire() + tail;
    var after := mask + f.Body() + tail;
    assert s == [f.First()] + len + after;
    LengthRoundTrip(f.First(), n, masked, after);
    OpcodeKept(f);
    LengthNonEmpty(n, masked);
    var off := 1 + |len|;
    var at := off + |mask|;
    assert s[off..at] == mask;
    if f.Valid() {
      assert s[at..at + n] == f.Body() && s[at + n..] == tail;
      if masked {
        MaskTwice(f.payload, f.mask.value);
      }
    }
  }

  /** The final bit and the reserved bits do not disturb the opcode. */
  lemma OpcodeKept(f: Frame)
    ensures f.First() % 16 == f.op
  {
  }

  lemma LengthNonEmpty(n: nat, masked: bool)
    ensures |LengthBytes(n, masked)| >= 1
  {
  }

  // ---- frames as the standard lays them out, in literal numbers ----

  /** Eight bytes, the highest first. */
  function Eight(s: Bytes): nat
    requires |s| == 8
  {
    s[7] + 256 * (s[6] + 256 * (s[5] + 256 * (s[4] + 256 * (s[3] + 256 * (s[2] + 256 * (s[1] + 256 * (s[0] as nat)))))))
  }

  lemma EightIs(s: Bytes)
    requires |s| == 8
    ensures BeValue(s) == Eight(s)
  {
    hide BeValue;
    BeNothing();
    BeStep(s);
    BeStep(s[..7]);
    BeStep(s[..6]);
    BeStep(s[..5]);
    BeStep(s[..4]);
    BeStep(s[..3]);
    BeStep(s[..2]);
    BeStep(s[..1]);
    assert s[..0] == [];
    assert s[..7][..6] == s[..6] && s[..6][..5] == s[..5] && s[..5][..4] == s[..4] && s[..4][..3] == s[..3];
    assert s[..3][..2] == s[..2] && s[..2][..1] == s[..1] && s[..1][..0] == s[..0];
  }

  lemma BeNothing()
    ensures BeValue([]) == 0
  {
  }

  lemma BeStep(s: Bytes)
    requires s != []
    ensures BeValue(s) == BeValue(s[..|s| - 1]) * 256 + s[|s| - 1] as int
  {
  }

  /** Seven bits of length, or 126 and two bytes, or 127 and eight. */
  function RfcLength(s: Bytes): Option<(nat, nat)>
    requires |s| >= 2
  {
    if s[1] % 128 == 126 then if |s| < 4 then None else Some((256 * s[2] as int + s[3], 4))
    else if s[1] % 128 == 127 then if |s| < 10 then None else Some((Eight(s[2..10]), 10))
    else Some((s[1] % 128, 2))
  }

  /** The payload behind a header of `off` bytes, unmasked when four bytes of mask follow the header. */
  function RfcPayload(s: Bytes, off: nat, masked: bool, n: nat): (p: Bytes)
    requires |s| >= off + (if masked then 4 else 0) + n
    ensures |p| == n
  {
    if masked then seq(n, i requires 0 <= i < n => XorByte(s[off + 4 + i], s[off + i % 4])) else s[off..off + n]
  }

  /** One frame: opcode 8 closes, 9 pings, 10 is a pong, 0 to 2 carry data, and nothing else is known. */
  function RfcFrame(s: Bytes): FrameRead {
    if |s| < 2 || RfcLength(s).None? then FrameRead(Failed(Short), [])
    else
      var (n, off) := RfcLength(s).value;
      var masked, op := s[1] >= 128, s[0] % 16;
      var at := if masked then off + 4 else off;
      if n > 1_048_576 then FrameRead(Failed(TooLarge), s[off..])
      else if |s| < at + n then FrameRead(Failed(Short), [])
      else
        var p := RfcPayload(s, off, masked, n);
        var event := match op
          case 0 => DataFrame(p)
          case 1 => DataFrame(p)
          case 2 => DataFrame(p)
          case 8 => Failed(Closed)
          case 9 => Ping(p)
          case 10 => Pong
          case _ => Failed(BadOpcode);
        FrameRead(event, s[at + n..])
  }

  lemma RfcLengthIs(s: Bytes)
    requires |s| >= 2
    ensures LengthOf(s) == RfcLength(s)
  {
    hide BeValue, Eight;
    if |s| >= 10 {
      EightIs(s[2..10]);
    }
  }

  lemma RfcPayloadIs(s: Bytes, off: nat, masked: bool, n: nat)
    requires off + (if masked then 4 else 0) + n <= |s|
    ensures var at := if masked then off + 4 else off;
      RfcPayload(s, off, masked, n) == if masked then Masked(s[at..at + n], s[off..at]) else s[at..at + n]
  {
    hide XorByte;
  }

  /** For every input, malformed input included, the reader's frame is the standard's. */
  lemma ReaderIsRfc(s: Bytes)
    ensures ReadFrameOf(s) == RfcFrame(s)
  {
    hide LengthOf, RfcLength, Masked, RfcPayload;
    if |s| >= 2 {
      RfcLengthIs(s);
      if RfcLength(s).Some? {
        var (n, off) := RfcLength(s).value;
        var masked := s[1] >= 128;
        if off + (if masked then 4 else 0) + n <= |s| {
          RfcPayloadIs(s, off, masked, n);
        }
      }
    }
  }

  /** The length in a header: below 126 in the second byte, else behind it in two bytes or in eight. */
  lemma LengthShows(n: nat, masked: bool)
    requires n < Pow256(8)
    ensures var l := LengthBytes(n, masked); var bit := if masked then 128 else 0;
      && |l| == (if n < 126 then 1 else if n < 65536 then 3 else 9)
      && (n < 126 ==> l[0] == bit + n)
      && (126 <= n < 65536 ==> l[0] == bit + 126 && n == 256 * l[1] as int + l[2])
      && (n >= 65536 ==> l[0] == bit + 127 && n == Eight(l[1..]))
  {
    hide BeBytes, BeValue, Eight, Pow256;
    if n >= 65536 {
      assert LengthBytes(n, masked)[1..] == BeBytes(8, n);
      BeRoundTrip(8, n);
      EightIs(BeBytes(8, n));
    }
  }

  /** What a frame looks like on the wire: final bit, reserved bits and opcode; mask bit and length in its shortest
      form; the mask; the payload, byte `i` masked with byte `i % 4` of the mask. */
  lemma FrameBytes(f: Frame)
    requires |f.payload| < Pow256(8)
    ensures var w := f.Wire(); var n := |f.payload|; var bit := if f.mask.Some? then 128 else 0;
      var off := if n < 126 then 2 else if n < 65536 then 4 else 10;
      var at := if f.mask.Some? then off + 4 else off;
      && |w| == at + n && w[0] == (if f.fin then 128 else 0) + 16 * f.rsv + f.op
      && (n < 126 ==> w[1] == bit + n)
      && (126 <= n < 65536 ==> w[1] == bit + 126 && n == 256 * w[2] as int + w[3])
      && (n >= 65536 ==> w[1] == bit + 127 && n == Eight(w[2..10]))
      && (f.mask.Some? ==> w[off..at] == f.mask.value)
      && w[at..] == f.Body()
  {
    hide LengthBytes, Masked, Eight, Pow256;
    var n, masked := |f.payload|, f.mask.Some?;
    var len := LengthBytes(n, masked);
    LengthShows(n, masked);
    var mask: Bytes := if masked then f.mask.value else [];
    var w := f.Wire();
    var off := 1 + |len|;
    assert w == [f.First()] + len + mask + f.Body();
    assert w[1..off] == len && w[off..off + |mask|] == mask && w[off + |mask|..] == f.Body();
  }

  lemma BodyBytes(f: Frame, i: nat)
    requires i < |f.payload|
    ensures f.Body()[i] == if f.mask.Some? then XorByte(f.payload[i], f.mask.value[i % 4]) else f.payload[i]
  {
    hide XorByte;
  }

  // ---- a stream of frames ----

  function WireOf(fs: seq<Frame>): Bytes {
    if fs == [] then [] else fs[0].Wire() + WireOf(fs[1..])
  }

  /** Everything a reader can take from an input: the data, the pings to answer, and why it stops. */
  datatype Stream = Stream(data: Bytes, pings: seq<Bytes>, end: ReadError)

  function StreamOf(s: Bytes): Stream
    decreases |s|
  {
    var f := ReadFrameOf(s);
    match f.event
    case Failed(why) => Stream([], [], why)
    case Pong => StreamOf(f.rest)
    case Ping(p) => var t := StreamOf(f.rest); t.(pings := [p] + t.pings)
    case DataFrame(d) => var t := StreamOf(f.rest); t.(data := d + t.data)
  }

  function DataIn(fs: seq<Frame>): Bytes {
    if fs == [] then [] else (if fs[0].op <= 2 then fs[0].payload else []) + DataIn(fs[1..])
  }

  function PingsIn(fs: seq<Frame>): seq<Bytes> {
    if fs == [] then [] else (if fs[0].op == 9 then [fs[0].payload] else []) + PingsIn(fs[1..])
  }

  /** A frame that neither closes nor breaks the stream. */
  predicate Plain(f: Frame) {
    f.Valid() && (f.op <= 2 || f.op == 9 || f.op == 10)
  }

  lemma PlainMeans(f: Frame)
    ensures Plain(f) <==> f.op in {0, 1, 2, 9, 10} && |f.payload| <= 1_048_576
  {
  }

  /** Over any mix of data, ping and pong frames, fragments of messages among them, the stream is the data
      payloads joined, with each ping's payload to be answered, in order. */
  lemma {:induction false} StreamRoundTrip(fs: seq<Frame>, tail: Bytes)
    requires forall i :: 0 <= i < |fs| ==> Plain(fs[i])
    ensures var t := StreamOf(tail);
      StreamOf(WireOf(fs) + tail) == Stream(DataIn(fs) + t.data, PingsIn(fs) + t.pings, t.end)
    decreases |fs|
  {
    hide ReadFrameOf, Pow256;
    if fs == [] {
      assert WireOf(fs) + tail == tail;
      assert DataIn(fs) + StreamOf(tail).data == StreamOf(tail).data;
      assert PingsIn(fs) + StreamOf(tail).pings == StreamOf(tail).pings;
    } else {
      var f, more := fs[0], WireOf(fs[1..]) + tail;
      Assoc(f.Wire(), WireOf(fs[1..]), tail);
      assert Plain(f);
      MaxFits();
      FrameRoundTrip(f, more);
      StreamRoundTrip(fs[1..], tail);
      StreamStep(f, more);
      var t := StreamOf(tail);
      Assoc(if f.op <= 2 then f.payload else [], DataIn(fs[1..]), t.data);
      Assoc(if f.op == 9 then [f.payload] else [], PingsIn(fs[1..]), t.pings);
    }
  }

  lemma StreamStep(f: Frame, more: Bytes)
    requires Plain(f) && ReadFrameOf(f.Wire() + more) == FrameRead(EventOf(f.op, f.payload), more)
    ensures var t := StreamOf(more);
      StreamOf(f.Wire() + more) == Stream((if f.op <= 2 then f.payload else []) + t.data,
                                          (if f.op == 9 then [f.payload] else []) + t.pings, t.end)
  {
    hide ReadFrameOf;
    var t := StreamOf(more);
    assert [] + t.data == t.data && [] + t.pings == t.pings;
  }

  // ---- the connection ----

  datatype ReadResult = Got(data: Bytes) | NoData(why: ReadError) | PongFailed

  class WSConn {
    const src: Source
    const sink: Sink
    /** The random masks, in order; None is a failed read of the random source. */
    const masks: nat -> Option<Mask>
    var drawn: nat
    var rbuf: Bytes
    /** The pings read so far, and the frames written so far. */
    ghost var pings: seq<Bytes>
    ghost var log: seq<Frame>

    constructor (src: Source, sink: Sink, masks: nat -> Option<Mask>)
      requires sink.sent == []
      ensures Clean() && this.src == src && this.sink == sink && rbuf == [] && pings == [] && log == []
    {
      this.src, this.sink, this.masks, drawn, rbuf, pings, log := src, sink, masks, 0, [], [], [];
    }

    /** Only whole frames are on the wire. */
    ghost predicate Clean()
      reads this, sink
    {
      sink.sent == WireOf(log)
    }

    ghost function Rest(): Stream
      reads this, src
    {
      StreamOf(src.input)
    }

    /** The data this connection has still to deliver. */
    ghost function Data(): Bytes
      reads this, src
    {
      rbuf + Rest().data
    }

    /** One frame, header and body in two writes; on failure a part of it may be on the wire. */
    method WriteFrame(op: Opcode, payload: Bytes) returns (ok: bool, ghost f: Frame)
      modifies this`drawn, this`log, sink
      ensures f.fin && f.rsv == 0 && f.op == op && f.payload == payload && f.mask.Some?
      ensures ok ==> f.mask == masks(old(drawn))
      ensures log == if ok then old(log) + [f] else old(log)
      ensures ok && old(Clean()) ==> Clean()
      ensures old(Clean()) ==> sink.sent <= WireOf(old(log) + [f])
    {
      hide WireOf, LengthBytes, Masked;
      f := Frame(true, 0, op, payload, Some([0, 0, 0, 0]));
      var draw := masks(drawn);
      drawn := drawn + 1;
      if draw.None? {
        WireAppend(log, f);
        return false, f;
      }
      f := Frame(true, 0, op, payload, draw);
      WireAppend(log, f);
      var header := [128 + op] + LengthBytes(|payload|, true) + draw.value;
      var masked := new byte[|payload|](i requires 0 <= i < |payload| => payload[i]);
      assert masked[..] == payload;
      MaskInPlace(masked, draw.value);
      ghost var was := sink.sent;
      Assoc(was, header, f.Body());
      ok := sink.Send(header);
      if !ok {
        return false, f;
      }
      if |payload| == 0 {
        assert f.Body() == [];
        log := log + [f];
        return true, f;
      }
      ok := sink.Send(masked[..]);
      if ok {
        log := log + [f];
      }
    }

    /** A data message: one masked binary frame. */
    method Write(p: Bytes) returns (n: nat, ok: bool)
      modifies this`drawn, this`log, sink
      ensures ok ==> n == |p| && |log| == |old(log)| + 1 && log[..|old(log)|] == old(log)
      ensures ok && |log| == |old(log)| + 1 ==> log[|old(log)|].op == 2 && log[|old(log)|].payload == p
      ensures !ok ==> n == 0 && log == old(log)
      ensures ok && old(Clean()) ==> Clean()
    {
      ghost var f;
      ok, f := WriteFrame(2, p);
      n := if ok then |p| else 0;
    }

    /** The next frame: a ping is answered with its own payload before anything else is read. */
    method ReadFrame() returns (e: Event, answered: bool)
      modifies this`drawn, this`log, this`pings, src, sink
      ensures FrameRead(e, src.input) == ReadFrameOf(old(src.input))
      ensures pings == old(pings) + (if e.Ping? then [e.ping] else [])
      ensures answered && e.Ping? ==> |log| == |old(log)| + 1 && log[..|old(log)|] == old(log)
      ensures answered && e.Ping? && |log| > |old(log)| ==>
        log[|old(log)|].op == 10 && log[|old(log)|].payload == e.ping
      ensures !(answered && e.Ping?) ==> log == old(log)
      ensures answered && old(Clean()) ==> Clean()
      ensures !e.Ping? ==> answered
    {
      hide BeValue, Masked;
      answered := true;
      ghost var s := src.input;
      var hdr := src.ReadFull(2);
      if hdr.None? {
        return Failed(Short), true;
      }
      var op: Opcode := hdr.value[0] % 16;
      var masked := hdr.value[1] >= 128;
      var n: nat := hdr.value[1] % 128;
      if n == 126 {
        var ext := src.ReadFull(2);
        if ext.None? {
          return Failed(Short), true;
        }
        assert GetU16(ext.value, 0) == GetU16(s, 2);
        n := GetU16(ext.value, 0);
      } else if n == 127 {
        var ext := src.ReadFull(8);
        if ext.None? {
          return Failed(Short), true;
        }
        assert ext.value == s[2..10];
        n := BeValue(ext.value);
      }
      assert LengthOf(s).Some? && LengthOf(s).value.0 == n;
      ghost var off := LengthOf(s).value.1;
      assert src.input == s[off..];
      if n > MAX_FRAME {
        return Failed(TooLarge), true;
      }
      e := ReadPayload(op, n, masked, s, off);
      if e.Ping? {
        pings := pings + [e.ping];
        ghost var f;
        answered, f := WriteFrame(10, e.ping);
      }
    }

    method ReadPayload(op: Opcode, n: nat, masked: bool, ghost s: Bytes, ghost off: nat) returns (e: Event)
      requires |s| >= 2 && LengthOf(s) == Some((n, off)) && off <= |s| && src.input == s[off..] && n <= MAX_FRAME
      requires op == s[0] % 16 && (masked <==> s[1] >= 128)
      modifies src
      ensures FrameRead(e, src.input) == ReadFrameOf(s)
    {
      hide LengthOf, Masked;
      var mask: Mask := [0, 0, 0, 0];
      if masked {
        var m := src.ReadFull(4);
        if m.None? {
          return Failed(Short);
        }
        mask := m.value;
        SliceSlice(s, off, 4);
      }
      ghost var at := if masked then off + 4 else off;
      var payload: Bytes := [];
      if n > 0 {
        var p := src.ReadFull(n);
        if p.None? {
          return Failed(Short);
        }
        payload := p.value;
        SliceSlice(s, at, n);
      }
      assert payload == s[at..at + n] && src.input == s[at + n..];
      if masked {
        var a := new byte[|payload|](i requires 0 <= i < |payload| => payload[i]);
        assert a[..] == payload;
        MaskInPlace(a, mask);
        payload := a[..];
      }
      e := EventOf(op, payload);
    }

    /** The next bytes of the data stream. Every ping met on the way is answered; control frames and empty
        data frames are skipped; each turn of the loop uses up input, so it ends. */
    method Read(size: nat) returns (r: ReadResult)
      modifies this, src, sink
      ensures r.Got? ==> |r.data| <= size && (size > 0 ==> r.data != [])
      ensures r.Got? ==> old(Data()) == r.data + Data()
      ensures r.Got? ==> pings + Rest().pings == old(pings) + old(Rest()).pings
      ensures r.NoData? ==> old(Data()) == [] && r.why == old(Rest()).end && pings == old(pings) + old(Rest()).pings
      ensures old(Clean()) && !r.PongFailed? ==> Clean()
      ensures old(pings) <= pings
      ensures !r.PongFailed? ==> PongsIn(log) == PongsIn(old(log)) + pings[|old(pings)|..]
      ensures old(rbuf) != [] ==> r.Got?
    {
      hide ReadFrameOf, WireOf, PongsIn;
      ghost var data, asked := Data(), pings + Rest().pings;
      assert pings[|pings|..] == [] && PongsIn(log) + [] == PongsIn(log);
      while |rbuf| == 0
        invariant data == Data() && asked == pings + Rest().pings && Rest().end == old(Rest()).end
        invariant old(Clean()) ==> Clean()
        invariant old(pings) <= pings && PongsIn(log) == PongsIn(old(log)) + pings[|old(pings)|..]
        invariant old(rbuf) != [] ==> rbuf == old(rbuf)
        decreases |src.input|, rbuf == []
      {
        NextFrame(src.input);
        ghost var before, logged := pings, log;
        var e, answered := ReadFrame();
        match e {
          case Failed(why) =>
            assert [] + [] == data;
            return NoData(why);
          case Ping(p) =>
            if !answered {
              return PongFailed;
            }
            Assoc(before, [p], Rest().pings);
            PongAppend(logged, log[|logged|]);
            assert log == logged + [log[|logged|]];
            assert pings[|old(pings)|..] == before[|old(pings)|..] + [p];
          case Pong =>
          case DataFrame(d) =>
            rbuf := d;
            assert [] + (d + Rest().data) == d + Rest().data;
        }
      }
      var n := Min(size, |rbuf|);
      assert rbuf == rbuf[..n] + rbuf[n..];
      Assoc(rbuf[..n], rbuf[n..], Rest().data);
      r := Got(rbuf[..n]);
      rbuf := rbuf[n..];
    }
  }

  function PongOf(f: Frame): seq<Bytes> {
    if f.op == 10 then [f.payload] else []
  }

  /** The payloads of the pongs among some frames. */
  function PongsIn(fs: seq<Frame>): seq<Bytes> {
    if fs == [] then [] else PongOf(fs[0]) + PongsIn(fs[1..])
  }

  lemma {:induction false} PongAppend(fs: seq<Frame>, f: Frame)
    ensures PongsIn(fs + [f]) == PongsIn(fs) + PongOf(f)
  {
    hide PongOf;
    if fs == [] {
      assert fs + [f] == [f];
      assert PongsIn([f][1..]) == [];
      assert PongsIn([f]) == PongOf(f) + [];
    } else {
      assert (fs + [f])[1..] == fs[1..] + [f];
      PongAppend(fs[1..], f);
      Assoc(PongOf(fs[0]), PongsIn(fs[1..]), PongOf(f));
    }
  }

  lemma NextFrame(s: Bytes)
    ensures var f := ReadFrameOf(s);
      (match f.event
       case Failed(why) => StreamOf(s) == Stream([], [], why)
       case Pong => StreamOf(s) == StreamOf(f.rest)
       case Ping(p) => StreamOf(s) == StreamOf(f.rest).(pings := [p] + StreamOf(f.rest).pings)
       case DataFrame(d) => StreamOf(s) == StreamOf(f.rest).(data := d + StreamOf(f.rest).data))
    ensures !ReadFrameOf(s).event.Failed? ==> |ReadFrameOf(s).rest| < |s|
  {
    hide ReadFrameOf;
  }

  lemma {:induction false} WireAppend(fs: seq<Frame>, f: Frame)
    ensures WireOf(fs + [f]) == WireOf(fs) + f.Wire()
  {
    hide Frame.Wire;
    if fs == [] {
      assert fs + [f] == [f];
      assert WireOf([f][1..]) == [];
    } else {
      assert (fs + [f])[1..] == fs[1..] + [f];
      WireAppend(fs[1..], f);
      Assoc(fs[0].Wire(), WireOf(fs[1..]), f.Wire());
    }
  }
}
