/** The Snell v4 writer object: frames go out through a writer that may write short or fail. */
module SnellWriter {
  import opened Bytes
  import opened Net
  import opened SnellNonce
  import opened SnellPadding
  import opened SnellFrame
  import opened SnellIdentity
  import opened SnellPace

  /** A script of short writes only: every write makes progress. */
  predicate MakesProgress(script: seq<Accept>) {
    forall i :: 0 <= i < |script| ==> script[i].count > 0 && !script[i].fails
  }

  /** Everything is written, or a prefix is and an error is reported; short writes alone never fail. */
  method WriteFull(w: Sink, b: Bytes) returns (ok: bool)
    modifies w
    ensures ok ==> w.sent == old(w.sent) + b
    ensures old(w.sent) <= w.sent <= old(w.sent) + b
    ensures MakesProgress(old(w.script)) ==> ok && MakesProgress(w.script)
  {
    var rest := b;
    while |rest| > 0
      invariant |rest| <= |b| && rest == b[|b| - |rest|..]
      invariant w.sent == old(w.sent) + b[..|b| - |rest|]
      invariant MakesProgress(old(w.script)) ==> MakesProgress(w.script)
    {
      var done := |b| - |rest|;
      var n, failed := w.Write(rest);
      assert b[..done] + rest[..n] == b[..done + n];
      assert w.sent == old(w.sent) + b[..done + n];
      if failed {
        return false;
      }
      if n == 0 {
        return false;
      }
      rest := rest[n..];
    }
    return true;
  }

  datatype WriteError = FrameTooLarge | ZeroWithPadding | NoIdentity | NoRandomness | SinkFailed

  function Payloads(cs: seq<Chunk>): (r: seq<Bytes>)
    ensures |r| == |cs|
  {
    seq(|cs|, i requires 0 <= i < |cs| => cs[i].payload)
  }

  /** The chunks that went out in full: all but the last when the last one failed. */
  function Completed(tried: Chunks, err: Option<WriteError>): Chunks
    requires tried != []
  {
    if err == None then tried else tried[..|tried| - 1]
  }

  /** Chunks without a zero chunk among them carry their payloads, joined. */
  lemma {:induction false} PayloadSymbols(cs: seq<Chunk>)
    requires [] !in Payloads(cs)
    ensures Symbols(cs) == Data(Flatten(Payloads(cs)))
  {
    if cs != [] {
      assert Payloads(cs)[0] == cs[0].payload;
      assert Payloads(cs)[1..] == Payloads(cs[1..]);
      PayloadSymbols(cs[1..]);
      DataConcat(cs[0].payload, Flatten(Payloads(cs[1..])));
    }
  }

  lemma {:induction false} PiecesNonEmpty(p: Pace, clock: nat -> int, t: nat, b: Bytes)
    ensures [] !in Pieces(p, clock, t, b)
    decreases |b|
  {
    hide Pace.Limit, Pace.Next;
    if b != [] {
      PiecesNonEmpty(p.Next(clock(t)), clock, t + 1, b[Min(p.Room(clock(t)), |b|)..]);
    }
  }

  lemma OneZeroChunk()
    ensures Symbols([Chunk([], [])]) == [Zero] && Symbols([]) == []
  {
    assert Symbols([]) == [];
  }

  lemma OneChunk(c: Chunk)
    ensures Symbols([c]) == SymbolsOf(c)
  {
    assert Symbols([]) == [];
  }

  /** Only the first chunk is padded, with so many bytes. */
  predicate PaddedFirst(cs: seq<Chunk>, first: nat) {
    forall i :: 0 <= i < |cs| ==> |cs[i].padding| == if i == 0 then first else 0
  }

  lemma PaddedStep(cs: seq<Chunk>, c: Chunk, first: nat)
    requires PaddedFirst(cs, first) && |c.padding| == if cs == [] then first else 0
    ensures PaddedFirst(cs + [c], first)
  {
  }

  /** `cs` are the pieces of `b` up to `n`, and `rest` is left of `all`. */
  ghost predicate Covers(cs: seq<Chunk>, all: seq<Bytes>, rest: seq<Bytes>, b: Bytes, n: nat) {
    n <= |b| && all == Payloads(cs) + rest && Flatten(Payloads(cs)) == b[..n]
  }

  lemma NothingCovered(all: seq<Bytes>, b: Bytes, first: nat)
    ensures Covers([], all, all, b, 0) && PaddedFirst([], first)
  {
    assert Payloads([]) == [] && Flatten([]) == [];
  }

  lemma CoverStep(cs: seq<Chunk>, c: Chunk, all: seq<Bytes>, rest: seq<Bytes>, b: Bytes, n: nat, end: nat)
    requires n <= end <= |b| && c.payload == b[n..end]
    requires Covers(cs, all, [c.payload] + rest, b, n)
    ensures Covers(cs + [c], all, rest, b, end)
  {
    hide Flatten;
    assert Payloads(cs + [c]) == Payloads(cs) + [c.payload];
    Assoc(Payloads(cs), [c.payload], rest);
    FlattenAppend(Payloads(cs), c.payload);
    assert b[..n] + b[n..end] == b[..end];
  }

  lemma Covered(cs: seq<Chunk>, all: seq<Bytes>, rest: seq<Bytes>, b: Bytes, n: nat)
    requires Covers(cs, all, rest, b, n)
    ensures Payloads(cs) <= all && Flatten(Payloads(cs)) == b[..n] && (rest == [] ==> Payloads(cs) == all)
  {
  }

  // ---- frame sizes ----

  /** The first data chunk of a connection fills one 1460-byte frame at most, salt, identity and initial
      padding included, and exactly when its payload fills the limit. */
  lemma FirstFrameFits(pre: Bytes, a: Aead, p: Pace, now: int, cs: Chunks, c: Chunk)
    requires p.Valid() && p.last.None? && |pre| == SALT_SIZE + p.idLen
    requires c.Valid() && 0 < |c.payload| <= p.Limit(now)
    requires |c.padding| == if cs == [] then p.initPad else 0
    ensures |Added(pre, a, cs, c)| <= 1460
    ensures cs == [] && |c.payload| == p.Limit(now) ==> |Added(pre, a, cs, c)| == 1460
  {
    hide NonceAt;
    LimitInRange(p, now);
  }

  /** So does the first data chunk after a pause of more than thirty seconds. */
  lemma PauseFrameFits(pre: Bytes, a: Aead, p: Pace, now: int, cs: Chunks, c: Chunk)
    requires p.Valid() && p.last.Some? && now - p.last.value > 30_000_000_000
    requires cs != [] && c.Valid() && c.padding == [] && 0 < |c.payload| <= p.Limit(now)
    ensures |Added(pre, a, cs, c)| <= 1460
    ensures |c.payload| == p.Limit(now) ==> |Added(pre, a, cs, c)| == 1460
  {
    hide NonceAt;
  }

  class V4Writer {
    const sink: Sink
    const aead: Aead
    const nonce: array<byte>
    const salt: Bytes
    const identity: Identity
    const initPad: nat
    /** The readings of the clock, in order; `ticks` counts those taken. */
    const clock: nat -> int
    var saltSent: bool
    var payLimit: nat
    var lastWrite: Option<int>
    var ticks: nat
    /** The chunks written so far. */
    ghost var log: Chunks
    /** The nonce of every seal made so far, in order, whatever became of its frame. */
    ghost var used: seq<Bytes>

    constructor (sink: Sink, aead: Aead, salt: Bytes, identity: Identity, delta: nat, clock: nat -> int)
      requires |salt| == SALT_SIZE && delta < INITIAL_PAD_SPAN && sink.sent == []
      ensures Valid() && Clean() && Stepped() && fresh(nonce)
      ensures log == [] && !saltSent && this.sink == sink && this.aead == aead && this.salt == salt
      ensures this.identity == identity && initPad == 256 + delta && this.clock == clock
      ensures lastWrite == None && ticks == 0 && used == []
    {
      this.sink, this.aead, this.salt, this.identity, this.clock := sink, aead, salt, identity, clock;
      nonce := new byte[NONCE_SIZE](_ => 0);
      initPad := INITIAL_PAD_MIN + delta;
      saltSent, payLimit, lastWrite, ticks, log, used := false, 0, None, 0, [], [];
      new;
      ZeroNonce(|ZERO_NONCE|);
      assert nonce[..] == Repeat(|ZERO_NONCE|, 0);
    }

    function Pacing(): Pace
      reads this
    {
      Pace(lastWrite, payLimit, identity.WireLength(), initPad)
    }

    /** Every seal has had the nonce of its turn, and the next one will. */
    ghost predicate Stepped()
      reads this`used, nonce
    {
      nonce[..] == NonceAt(|used|) && forall i :: 0 <= i < |used| ==> used[i] == NonceAt(i)
    }

    ghost predicate Valid()
      reads this
    {
      nonce.Length == NONCE_SIZE && |salt| == SALT_SIZE && Pacing().Valid()
    }

    /** Salt and identity prefix of the first frame; None when there is no identity to send. */
    function Preamble(): Option<Bytes>
    {
      var id := identity.Prefix(salt);
      if id.None? then None else Some(salt + id.value)
    }

    /** No write has failed: the wire holds exactly the log, and the nonce is where the log leaves it. */
    ghost predicate Clean()
      reads this, nonce, sink
    {
      sink.sent == WireOf(Preamble(), aead, log) && InStep()
    }

    method NextPayloadLimit() returns (limit: nat)
      requires Valid()
      modifies this
      ensures Valid() && limit == old(Pacing()).Limit(clock(old(ticks)))
      ensures Pacing() == old(Pacing()).Next(clock(old(ticks))) && ticks == old(ticks) + 1 && used == old(used)
      ensures saltSent == old(saltSent) && log == old(log)
    {
      var now := clock(ticks);
      LimitInRange(Pacing(), now);
      ticks := ticks + 1;
      if lastWrite.None? {
        limit := Narrow(FRAME_SIZE - FIRST_OVERHEAD - identity.WireLength() - initPad);
      } else if now - lastWrite.value > PAUSE {
        limit := Narrow(FRAME_SIZE - FRAME_OVERHEAD);
      } else {
        limit := payLimit;
      }
      lastWrite := Some(now);
      var next := limit + FRAME_SIZE - FRAME_OVERHEAD;
      if next > MAX_PAYLOAD {
        next := MAX_PAYLOAD;
      }
      payLimit := Narrow(next);
    }

    /** The header and payload ciphertexts, stepping the nonce once for each. */
    method Seal(header: Bytes, payload: Bytes) returns (sealedHeader: Bytes, sealed: Bytes)
      requires Valid()
      modifies nonce, this`used
      ensures Valid() && (old(Stepped()) ==> Stepped())
      ensures var n := old(nonce[..]);
        && sealedHeader == aead.seal(n, header)
        && (payload == [] ==> sealed == [] && nonce[..] == Inc(n) && used == old(used) + [n])
        && (payload != [] ==>
          sealed == aead.seal(Inc(n), payload) && nonce[..] == Inc(Inc(n)) && used == old(used) + [n, Inc(n)])
    {
      hide Inc, NonceAt;
      NonceStep(|used|);
      NonceStep(|used| + 1);
      sealedHeader := aead.seal(nonce[..], header);
      used := used + [nonce[..]];
      IncNonce(nonce);
      sealed := [];
      if |payload| > 0 {
        sealed := aead.seal(nonce[..], payload);
        used := used + [nonce[..]];
        IncNonce(nonce);
      }
    }

    /** Padding and payload ciphertext, interleaved as they go out. */
    method Pad(sealed: Bytes, padLen: nat, draw: PadDraw) returns (body: Option<Bytes>, ghost padding: Bytes)
      requires draw.Valid()
      ensures body.Some? ==> |padding| == padLen && body.value == Interleaved(padding, sealed)
      ensures padLen == 0 || draw.Available() ==> body.Some?
    {
      padding := [];
      if padLen == 0 {
        assert Interleaved([], sealed) == sealed;
        return Some(sealed), [];
      }
      var p := MakePadding(sealed, padLen, draw);
      if p.None? {
        return None, [];
      }
      padding := p.value;
      var both := p.value + sealed;
      var frame := new byte[|both|](i requires 0 <= i < |both| => both[i]);
      assert frame[..] == both;
      assert frame[..padLen] == p.value && frame[padLen..] == sealed;
      SwapPadding(frame, padLen);
      body := Some(frame[..]);
    }

    /** Nonce and salt flag are where the log leaves them. */
    ghost predicate InStep()
      reads this, nonce
    {
      && nonce[..] == NonceAt(Seals(log))
      && (saltSent <==> log != [])
      && (saltSent ==> Preamble().Some?)
    }

    /** Nothing but the size of a payload can make the next frame fail: the network makes progress, and a first
        frame has its identity and its random bytes. */
    ghost predicate Ready(draw: PadDraw)
      reads this, sink
    {
      MakesProgress(sink.script) && (saltSent || (Preamble().Some? && draw.Available()))
    }

    /** What precedes the frame: salt and identity the first time, nothing later. */
    method FirstBytes() returns (prefix: Option<Bytes>)
      modifies this`saltSent
      ensures prefix == if old(saltSent) then Some([]) else Preamble()
      ensures saltSent == (old(saltSent) || prefix.Some?)
    {
      if saltSent {
        return Some([]);
      }
      prefix := Preamble();
      saltSent := prefix.Some?;
    }

    /** The bytes of one frame, ready to send. */
    method BuildFrame(payload: Bytes, padLen: nat, draw: PadDraw)
      returns (err: Option<WriteError>, frame: Bytes, ghost c: Chunk)
      requires Valid() && draw.Valid()
      requires |payload| <= MAX_PAYLOAD && padLen <= MAX_PAYLOAD && (payload == [] ==> padLen == 0)
      modifies this, nonce
      ensures old(used) <= used && (old(Stepped()) ==> Stepped())
      ensures Valid() && Pacing() == old(Pacing()) && ticks == old(ticks) && log == old(log)
      ensures err == None || err == Some(NoIdentity) || err == Some(NoRandomness)
      ensures err == Some(NoIdentity) <==> !old(saltSent) && Preamble().None?
      ensures padLen == 0 || draw.Available() ==> err != Some(NoRandomness)
      ensures c.Valid() && c.payload == payload && (err == None ==> |c.padding| == padLen && saltSent)
      ensures old(InStep()) && err == None ==>
        && Preamble().Some? && nonce[..] == NonceAt(Seals(log) + Steps(c))
        && frame == Added(Preamble().value, aead, log, c)
    {
      hide Stepped, Inc, NonceAt, Interleaved, Header, Seals, Preamble, FrameOf;
      c, frame := Chunk(payload, []), [];
      ghost var k := Seals(log);
      NonceStep(k);
      NonceStep(k + 1);
      var sealedHeader, sealed := Seal(Header(padLen, |payload|), payload);
      var prefix := FirstBytes();
      if prefix.None? {
        return Some(NoIdentity), frame, c;
      }
      var body, padding := Pad(sealed, padLen, draw);
      if body.None? {
        return Some(NoRandomness), frame, c;
      }
      c := Chunk(payload, padding);
      frame := prefix.value + (sealedHeader + body.value);
      FrameParts(aead, k, c);
      err := None;
    }

    /** One frame. On success the log gains its chunk; on failure no more than a part of it is on the wire. */
    method WriteFrame(payload: Bytes, padLen: nat, draw: PadDraw) returns (err: Option<WriteError>, ghost c: Chunk)
      requires Valid() && draw.Valid()
      modifies this, nonce, sink
      ensures old(used) <= used && (old(Stepped()) ==> Stepped())
      ensures Valid() && Pacing() == old(Pacing()) && ticks == old(ticks)
      ensures err == Some(FrameTooLarge) <==> |payload| > MAX_PAYLOAD || padLen > MAX_PAYLOAD
      ensures err == Some(ZeroWithPadding) <==> payload == [] && 0 < padLen <= MAX_PAYLOAD
      ensures c.Valid() && (err != Some(FrameTooLarge) ==> c.payload == payload)
      ensures err == None ==> |c.padding| == padLen && log == old(log) + [c] && saltSent
      ensures err != None ==> log == old(log)
      ensures old(Ready(draw)) && (padLen == 0 || draw.Available()) ==>
        err in {None, Some(FrameTooLarge), Some(ZeroWithPadding)} && (err == None ==> Ready(draw))
      ensures old(Clean()) ==> sink.sent <= WireOf(Preamble(), aead, old(log) + [c])
      ensures old(Clean()) && err == None ==> Clean()
    {
      hide Stepped, NonceAt, WireOf, Added, Seals;
      c := Chunk([], []);
      WireMonotone(Preamble(), aead, log, [c]);
      if |payload| > MAX_PAYLOAD || padLen > MAX_PAYLOAD {
        return Some(FrameTooLarge), c;
      }
      if |payload| == 0 && padLen != 0 {
        return Some(ZeroWithPadding), c;
      }
      ghost var clean := Clean();
      var why, frame, chunk := BuildFrame(payload, padLen, draw);
      c := chunk;
      WireMonotone(Preamble(), aead, log, [c]);
      if why != None {
        return why, c;
      }
      var ok := WriteFull(sink, frame);
      if clean {
        WireGrows(Preamble().value, aead, log, c);
      }
      if !ok {
        return Some(SinkFailed), c;
      }
      log := log + [c];
      err := None;
    }

    /** One datagram as one frame, padded only when it is the first frame of the connection. */
    method WritePacketFrame(b: Bytes, draw: PadDraw) returns (n: nat, err: Option<WriteError>, ghost c: Chunk)
      requires Valid() && draw.Valid()
      modifies this, nonce, sink
      ensures old(used) <= used && (old(Stepped()) ==> Stepped())
      ensures Valid() && Pacing() == old(Pacing())
      ensures c.Valid() && (err == None ==> n == |b| && c.payload == b && log == old(log) + [c])
      ensures err == None ==> |c.padding| == if !old(saltSent) && b != [] then initPad else 0
      ensures err == None ==> Symbols([c]) == (if b == [] then [Zero] else Data(b))
      ensures err == Some(FrameTooLarge) <==> |b| > MAX_PAYLOAD
      ensures err != None ==> n == 0 && log == old(log)
      ensures old(Ready(draw)) && |b| <= MAX_PAYLOAD ==> err == None && Ready(draw)
      ensures old(Clean()) ==> sink.sent <= WireOf(Preamble(), aead, old(log) + [c])
      ensures old(Clean()) && err == None ==> Clean()
    {
      hide Stepped, WireOf, NonceAt, Seals;
      var pad := 0;
      if !saltSent && |b| > 0 {
        pad := initPad;
      }
      err, c := WriteFrame(b, pad, draw);
      n := if err == None then |b| else 0;
      OneChunk(c);
    }

    /** One turn of Write's loop: the next piece of `b` as one frame. */
    method WritePiece(b: Bytes, from: nat, draw: PadDraw) returns (end: nat, err: Option<WriteError>, ghost c: Chunk)
      requires Valid() && from < |b| && draw.Valid()
      modifies this, nonce, sink
      ensures old(used) <= used && (old(Stepped()) ==> Stepped())
      ensures Valid() && from < end <= |b| && c.Valid() && c.payload == b[from..end]
      ensures Pieces(old(Pacing()), clock, old(ticks), b[from..])
           == [c.payload] + Pieces(Pacing(), clock, ticks, b[end..])
      ensures err == None ==> |c.padding| == (if old(saltSent) then 0 else initPad) && saltSent
      ensures log == if err == None then old(log) + [c] else old(log)
      ensures old(Ready(draw)) ==> err == None && Ready(draw)
      ensures old(Clean()) ==> sink.sent <= WireOf(Preamble(), aead, old(log) + [c])
      ensures old(Clean()) && err == None ==> Clean()
      ensures err !in {Some(FrameTooLarge), Some(ZeroWithPadding)}
    {
      hide Stepped, WireOf, NonceAt, Seals, Pace.Limit, Pace.Next, Pieces;
      LimitInRange(Pacing(), clock(ticks));
      NextPiece(Pacing(), clock, ticks, b, from);
      var limit := NextPayloadLimit();
      if limit <= 0 || limit > MAX_PAYLOAD {
        limit := MAX_PAYLOAD;
      }
      end := from + limit;
      if end > |b| {
        end := |b|;
      }
      var pad := 0;
      if !saltSent {
        pad := initPad;
      }
      err, c := WriteFrame(b[from..end], pad, draw);
    }

    /** Write's loop over a non-empty `b`. */
    method WriteChunks(b: Bytes, draw: PadDraw) returns (written: nat, err: Option<WriteError>, ghost tried: Chunks)
      requires Valid() && b != [] && draw.Valid()
      modifies this, nonce, sink
      ensures old(used) <= used && (old(Stepped()) ==> Stepped())
      ensures Valid() && written <= |b| && (err == None ==> written == |b|)
      ensures tried != [] && log == old(log) + Completed(tried, err)
      ensures Flatten(Payloads(Completed(tried, err))) == b[..written]
      ensures Payloads(tried) <= Pieces(old(Pacing()), clock, old(ticks), b)
      ensures err == None ==> Payloads(tried) == Pieces(old(Pacing()), clock, old(ticks), b)
      ensures err == None ==> PaddedFirst(tried, if old(saltSent) then 0 else initPad)
      ensures old(Ready(draw)) ==> err == None && Ready(draw)
      ensures old(Clean()) ==> sink.sent <= WireOf(Preamble(), aead, old(log) + tried)
      ensures old(Clean()) && err == None ==> Clean()
      ensures err !in {Some(FrameTooLarge), Some(ZeroWithPadding)}
    {
      hide Stepped, WireOf, NonceAt, Seals, Pieces, InStep, Ready, Covers, PaddedFirst;
      ghost var c;
      written, tried, err := 0, [], None;
      ghost var all, first := Pieces(Pacing(), clock, ticks, b), if saltSent then 0 else initPad;
      NothingCovered(all, b, first);
      assert b[0..] == b && log + [] == log;
      while written < |b|
        invariant old(used) <= used && (old(Stepped()) ==> Stepped())
        invariant written <= |b| && Valid() && log == old(log) + tried && (written > 0 ==> tried != [])
        invariant Covers(tried, all, Pieces(Pacing(), clock, ticks, b[written..]), b, written)
        invariant if tried == [] then saltSent == old(saltSent) else saltSent
        invariant PaddedFirst(tried, first)
        invariant old(Clean()) ==> Clean()
        invariant old(Ready(draw)) ==> Ready(draw)
        invariant err == None
      {
        ghost var done := tried;
        var end: nat;
        end, err, c := WritePiece(b, written, draw);
        tried := done + [c];
        Assoc(old(log), done, [c]);
        CoverStep(done, c, all, Pieces(Pacing(), clock, ticks, b[end..]), b, written, end);
        if err != None {
          assert tried[..|tried| - 1] == done;
          Covered(done, all, [c.payload] + Pieces(Pacing(), clock, ticks, b[end..]), b, written);
          Covered(tried, all, Pieces(Pacing(), clock, ticks, b[end..]), b, end);
          return written, err, tried;
        }
        PaddedStep(done, c, first);
        written := end;
      }
      NoPieces(Pacing(), clock, ticks);
      assert b[written..] == [];
      Covered(tried, all, [], b, written);
    }

    /** The whole of `b` as data chunks, cut by the pace; an empty `b` is one zero chunk. `tried` is the
        chunks attempted: all of them on success, and on failure what a prefix of is on the wire. Success or not,
        the count reported is the data of the chunks completed. */
    method Write(b: Bytes, draw: PadDraw) returns (written: nat, err: Option<WriteError>, ghost tried: Chunks)
      requires Valid() && draw.Valid()
      modifies this, nonce, sink
      ensures old(used) <= used && (old(Stepped()) ==> Stepped())
      ensures Valid() && written <= |b| && (err == None ==> written == |b|)
      ensures tried != [] && log == old(log) + Completed(tried, err)
      ensures b == [] ==> tried == [Chunk([], [])]
      ensures b != [] ==> Payloads(tried) <= Pieces(old(Pacing()), clock, old(ticks), b)
      ensures b != [] && err == None ==> Payloads(tried) == Pieces(old(Pacing()), clock, old(ticks), b)
      ensures b != [] && err == None ==> PaddedFirst(tried, if old(saltSent) then 0 else initPad)
      ensures old(Ready(draw)) ==> err == None && Ready(draw)
      ensures old(Clean()) ==> sink.sent <= WireOf(Preamble(), aead, old(log) + tried)
      ensures old(Clean()) && err == None ==> Clean()
      ensures Symbols(Completed(tried, err)) == (if b == [] && err == None then [Zero] else Data(b[..written]))
      ensures err !in {Some(FrameTooLarge), Some(ZeroWithPadding)}
    {
      hide Stepped, WireOf, NonceAt, Seals, Pieces, InStep, Symbols, Flatten, Ready;
      if |b| == 0 {
        ghost var c;
        err, c := WriteFrame([], 0, draw);
        OneZeroChunk();
        assert log == old(log) + Completed([c], err);
        return 0, err, [c];
      }
      written, err, tried := WriteChunks(b, draw);
      PiecesNonEmpty(old(Pacing()), clock, old(ticks), b);
      ghost var done := Completed(tried, err);
      assert forall i :: 0 <= i < |done| ==> Payloads(done)[i] == Payloads(tried)[i];
      PayloadSymbols(done);
      assert b[..|b|] == b;
    }
  }

  /** No two of the first 2^96 seals of a writer share a nonce, whether their frames went out or failed. */
  lemma SealsDiffer(w: V4Writer, i: nat, j: nat)
    requires w.Stepped() && i < j < |w.used| <= Pow256(|ZERO_NONCE|)
    ensures w.used[i] != w.used[j]
  {
    hide Pow256, NonceAt;
    NoncesDiffer(i, j);
  }
}
