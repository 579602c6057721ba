/** The transport end to end: whatever a client does with a connection that does not fail, its peer reads
    back exactly that, chunk marks included, for every way of cutting the wire and of reading it. */
module SnellStream {
  import opened Bytes
  import opened SnellNonce
  import opened SnellFrame
  import opened SnellPadding
  import opened SnellWriter
  import opened SnellReader

  /** A successful call on the writing side. */
  datatype Op = WriteOp(data: Bytes) | PacketOp(packet: Bytes) | HalfCloseOp

  /** What the call means to the peer. An empty Write or packet is a zero chunk, as in the code. */
  function Meaning(op: Op): seq<Sym> {
    match op
    case WriteOp(b) => if b == [] then [Zero] else Data(b)
    case PacketOp(b) => if b == [] then [Zero] else Data(b)
    case HalfCloseOp => [Zero]
  }

  function Meanings(ops: seq<Op>): seq<Sym> {
    if ops == [] then [] else Meaning(ops[0]) + Meanings(ops[1..])
  }

  /** The chunks of several calls, joined. */
  function Join(css: seq<Chunks>): Chunks {
    if css == [] then [] else css[0] + Join(css[1..])
  }

  /** The chunks each call wrote carry that call's meaning: what V4Writer.Write and WritePacketFrame
      ensure when they succeed. */
  ghost predicate Wrote(ops: seq<Op>, css: seq<Chunks>) {
    |ops| == |css| && forall i :: 0 <= i < |ops| ==> Symbols(css[i]) == Meaning(ops[i])
  }

  lemma {:induction false} JoinMeans(a: Aead, ops: seq<Op>, css: seq<Chunks>)
    requires Wrote(ops, css)
    ensures Symbols(Join(css)) == Meanings(ops)
  {
    hide Encode, Symbols;
    if css == [] {
      assert Symbols([]) == [] by { NoSymbols(); }
    } else {
      assert Wrote(ops[1..], css[1..]);
      JoinMeans(a, ops[1..], css[1..]);
      EncodeConcat(a, 0, css[0], Join(css[1..]));
    }
  }

  lemma NoSymbols()
    ensures Symbols([]) == []
  {
  }

  /** However much of a client's wire has arrived, a peer that skips the salt and the identity prefix has a
      prefix of what was written; with all of it, exactly what was written. */
  lemma WireDelivers(kdf: Bytes -> Aead, salt: Bytes, id: Bytes, cs: Chunks, cut: Bytes)
    requires |salt| == SALT_SIZE && cut <= WireOf(Some(salt + id), kdf(salt), cs)
    ensures SaltedSkip(kdf, cut, |id|) <= Symbols(cs)
    ensures cut == WireOf(Some(salt + id), kdf(salt), cs) ==> SaltedSkip(kdf, cut, |id|) == Symbols(cs)
  {
    hide Decode, Encode, Symbols;
    var pre, a := salt + id, kdf(salt);
    if cs == [] {
      NoSymbols();
    } else if |cut| >= |pre| {
      var body := cut[|pre|..];
      assert cut[..|pre|] == pre && cut[..SALT_SIZE] == salt;
      assert body <= Encode(a, 0, cs);
      DecodePrefix(a, 0, cs, body);
      if cut == WireOf(Some(pre), a, cs) {
        assert body == Encode(a, 0, cs);
        DecodeAll(a, cs);
      }
    } else {
      CutShort(kdf, cut, |id|);
      NonEmptyWire(a, cs);
    }
  }

  lemma CutShort(kdf: Bytes -> Aead, cut: Bytes, skip: nat)
    requires |cut| < SALT_SIZE + skip
    ensures SaltedSkip(kdf, cut, skip) == []
  {
  }

  lemma NonEmptyWire(a: Aead, cs: Chunks)
    requires cs != []
    ensures Encode(a, 0, cs) != []
  {
    hide FrameOf;
    assert |FrameOf(a, 0, cs[0])| > 0;
  }

  lemma DecodeAll(a: Aead, cs: Chunks)
    ensures Decode(a, 0, Encode(a, 0, cs)).syms == Symbols(cs)
  {
    hide Decode, Encode, Symbols;
    DecodeEncode(a, 0, cs, []);
    assert Encode(a, 0, cs) + [] == Encode(a, 0, cs);
    NothingLeft(a, Seals(cs));
  }

  lemma NothingLeft(a: Aead, k: nat)
    ensures Decode(a, k, []).syms == []
  {
  }

  /** What a run of reads hands out. */
  function Emit(r: ReadResult): seq<Sym> {
    match r
    case Got(d) => Data(d)
    case GotZero => [Zero]
    case ReadFailed(_) => []
  }

  function EmitAll(rs: seq<ReadResult>): seq<Sym> {
    if rs == [] then [] else Emit(rs[0]) + EmitAll(rs[1..])
  }

  /** A run of reads: `left[i]` is the reader's stream before the i-th read, related to the next as
      V4Reader.Read ensures; the run may end in a failure, which means the stream was empty. */
  ghost predicate ReadRun(left: seq<seq<Sym>>, rs: seq<ReadResult>) {
    && |left| == |rs| + 1
    && (forall i :: 0 <= i < |rs| ==> left[i] == Emit(rs[i]) + left[i + 1])
    && (forall i :: 0 <= i < |rs| && rs[i].ReadFailed? ==> left[i] == [])
  }

  lemma {:induction false} RunConserves(left: seq<seq<Sym>>, rs: seq<ReadResult>)
    requires ReadRun(left, rs)
    ensures left[0] == EmitAll(rs) + left[|rs|]
  {
    if rs != [] {
      assert ReadRun(left[1..], rs[1..]);
      RunConserves(left[1..], rs[1..]);
      Assoc(Emit(rs[0]), EmitAll(rs[1..]), left[|rs|]);
    }
  }

  /** Any successful calls on one side, any part of the wire, any buffer sizes on the other: the reads have
      handed out a prefix of what was written, in order, with a zero mark exactly where each half-close was;
      once the whole wire is in and the stream is drained, they have handed out all of it. */
  lemma TransferExact(kdf: Bytes -> Aead, salt: Bytes, id: Bytes, ops: seq<Op>, css: seq<Chunks>, cut: Bytes,
                      left: seq<seq<Sym>>, rs: seq<ReadResult>)
    requires |salt| == SALT_SIZE && Wrote(ops, css)
    requires cut <= WireOf(Some(salt + id), kdf(salt), Join(css))
    requires ReadRun(left, rs) && left[0] == SaltedSkip(kdf, cut, |id|)
    ensures EmitAll(rs) <= Meanings(ops)
    ensures cut == WireOf(Some(salt + id), kdf(salt), Join(css)) && left[|rs|] == [] ==> EmitAll(rs) == Meanings(ops)
  {
    hide WireOf, SaltedSkip, Symbols, EmitAll, Meanings;
    JoinMeans(kdf(salt), ops, css);
    WireDelivers(kdf, salt, id, Join(css), cut);
    RunConserves(left, rs);
  }

  // ---- the objects make such runs ----

  lemma {:induction false} JoinAppend(css: seq<Chunks>, cs: Chunks)
    ensures Join(css + [cs]) == Join(css) + cs
  {
    if css == [] {
      assert css + [cs] == [cs];
      assert Join([cs][1..]) == [];
    } else {
      assert (css + [cs])[1..] == css[1..] + [cs];
      JoinAppend(css[1..], cs);
      Assoc(css[0], Join(css[1..]), cs);
    }
  }

  /** Only a packet can be too large. */
  predicate Fits(op: Op) {
    op.PacketOp? ==> |op.packet| <= MAX_PAYLOAD
  }

  /** One call of the writing side. */
  method Perform(w: V4Writer, op: Op, draw: PadDraw) returns (ok: bool, ghost cs: Chunks)
    requires w.Valid() && w.Clean() && draw.Valid()
    modifies w, w.nonce, w.sink
    ensures w.Valid()
    ensures ok ==> w.Clean() && w.log == old(w.log) + cs && Symbols(cs) == Meaning(op)
    ensures old(w.Ready(draw)) && Fits(op) ==> ok && MakesProgress(w.sink.script)
  {
    hide WireOf, V4Writer.InStep, Symbols, PaddedFirst;
    match op {
      case WriteOp(b) =>
        var _, err, tried := w.Write(b, draw);
        assert b[..|b|] == b;
        ok := err == None;
        cs := Completed(tried, err);
      case PacketOp(b) =>
        var _, err, c := w.WritePacketFrame(b, draw);
        ok := err == None;
        cs := [c];
      case HalfCloseOp =>
        var _, err, tried := w.Write([], draw);
        ok := err == None;
        cs := Completed(tried, err);
    }
  }

  /** The network makes progress, however short its writes, the random source answers, there is an identity to
      send and no packet is too large. */
  ghost predicate Unhindered(w: V4Writer, ops: seq<Op>, draws: nat -> PadDraw)
    reads w.sink
  {
    && MakesProgress(w.sink.script) && w.Preamble().Some?
    && (forall i :: draws(i).Available())
    && (forall i :: 0 <= i < |ops| ==> Fits(ops[i]))
  }

  /** What that asks for, and no more. */
  lemma UnhinderedMeans(w: V4Writer, ops: seq<Op>, draws: nat -> PadDraw)
    requires w.Preamble().Some?
    requires forall a :: a in w.sink.script ==> a.count > 0 && !a.fails
    requires forall i: nat :: draws(i).unit.Some? && draws(i).raw.Some?
    requires forall i: nat, j: nat :: draws(i).choose(j).Some?
    requires forall op :: op in ops && op.PacketOp? ==> |op.packet| <= 16383
    ensures Unhindered(w, ops, draws)
  {
    assert forall i :: 0 <= i < |w.sink.script| ==> w.sink.script[i] in w.sink.script;
    assert forall i :: 0 <= i < |ops| ==> ops[i] in ops;
    forall i: nat
      ensures draws(i).Available()
    {
      assert forall j: nat :: draws(i).choose(j).Some?;
    }
  }

  /** A caller's calls in turn: while they succeed, the wire is what their chunks encode to, and unhindered they
      all succeed. */
  method PerformAll(w: V4Writer, ops: seq<Op>, draws: nat -> PadDraw) returns (ok: bool, ghost css: seq<Chunks>)
    requires w.Valid() && w.Clean() && w.log == [] && forall i :: draws(i).Valid()
    modifies w, w.nonce, w.sink
    ensures ok ==> Wrote(ops, css) && w.sink.sent == WireOf(w.Preamble(), w.aead, Join(css))
    ensures old(Unhindered(w, ops, draws)) ==> ok
  {
    hide WireOf, V4Writer.InStep, Symbols, Meaning, Join, Fits;
    css := [];
    assert Join(css) == [] by { NoChunks(); }
    for i := 0 to |ops|
      invariant w.Valid() && w.Clean() && w.log == Join(css) && Wrote(ops[..i], css)
      invariant old(Unhindered(w, ops, draws)) ==> Unhindered(w, ops, draws)
    {
      ghost var cs;
      ok, cs := Perform(w, ops[i], draws(i));
      if !ok {
        return false, css;
      }
      JoinAppend(css, cs);
      css := css + [cs];
    }
    assert ops[..|ops|] == ops;
    return true, css;
  }

  /** A caller that goes on after failures, whatever failed: no two seals made share a nonce, up to 2^96. */
  method PerformAnyway(w: V4Writer, ops: seq<Op>, draws: nat -> PadDraw)
    requires w.Valid() && w.Stepped() && forall i :: draws(i).Valid()
    modifies w, w.nonce, w.sink
    ensures w.Valid() && w.Stepped() && old(w.used) <= w.used
    ensures forall i, j :: 0 <= i < j < |w.used| <= Pow256(|ZERO_NONCE|) ==> w.used[i] != w.used[j]
  {
    hide V4Writer.Stepped, V4Writer.InStep, V4Writer.Ready, WireOf, Symbols, PaddedFirst, Pow256;
    for i := 0 to |ops|
      invariant w.Valid() && w.Stepped() && old(w.used) <= w.used
    {
      match ops[i] {
        case WriteOp(b) => var _, _, _ := w.Write(b, draws(i));
        case PacketOp(b) => var _, _, _ := w.WritePacketFrame(b, draws(i));
        case HalfCloseOp => var _, _, _ := w.Write([], draws(i));
      }
    }
    forall i, j | 0 <= i < j < |w.used| <= Pow256(|ZERO_NONCE|)
      ensures w.used[i] != w.used[j]
    {
      SealsDiffer(w, i, j);
    }
  }

  lemma NoChunks()
    ensures Join([]) == []
  {
  }

  lemma RunGrows(left: seq<seq<Sym>>, rs: seq<ReadResult>, got: ReadResult, rest: seq<Sym>)
    requires ReadRun(left, rs) && left[|rs|] == Emit(got) + rest && (got.ReadFailed? ==> left[|rs|] == [])
    ensures ReadRun(left + [rest], rs + [got])
  {
    hide Emit;
  }

  /** A caller that reads with these buffer sizes until the first failure. */
  method ReadAll(r: V4Reader, sizes: seq<nat>) returns (rs: seq<ReadResult>, ghost left: seq<seq<Sym>>)
    requires r.Valid()
    modifies r, r.nonce, r.src
    ensures ReadRun(left, rs) && left[0] == old(r.Stream())
    ensures |rs| == |sizes| || (|rs| < |sizes| && left[|rs|] == [])
  {
    hide V4Reader.Stream, V4Reader.Valid, ReadRun;
    rs, left := [], [r.Stream()];
    FirstRun(r.Stream());
    for i := 0 to |sizes|
      invariant r.Valid() && |rs| == i && |left| == i + 1 && ReadRun(left, rs)
      invariant left[0] == old(r.Stream()) && left[i] == r.Stream()
    {
      var got := r.Read(sizes[i]);
      if got.ReadFailed? {
        return rs, left;
      }
      RunGrows(left, rs, got, r.Stream());
      rs, left := rs + [got], left + [r.Stream()];
    }
  }

  lemma FirstRun(s: seq<Sym>)
    ensures ReadRun([s], [])
  {
  }
}
