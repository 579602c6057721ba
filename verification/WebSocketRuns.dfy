/** Concurrent writers of one WebSocket connection: application writes, pongs and the closing frame all take
    the write lock, and send a frame as a header and a body. Either send may fail, and a later one may still
    succeed. */
module WebSocketRuns {
  import opened Bytes
  import opened WebSocket

  /** The writer that holds the lock, and whether its header is out. */
  datatype Holder = Nobody | Writing(tid: nat, frame: Frame, headerSent: bool)

  /** One turn with the lock: its frame, how much of it went out and whether the writer was told it succeeded. */
  datatype Turn = Turn(tid: nat, frame: Frame, sent: nat, ok: bool) {
    predicate Valid() {
      sent <= |frame.Wire()| && (ok ==> sent == |frame.Wire()|)
    }

    function Out(): Bytes
      requires Valid()
    {
      frame.Wire()[..sent]
    }
  }

  type Turns = ts: seq<Turn> | forall i :: 0 <= i < |ts| ==> ts[i].Valid()

  /** `turns` lists the turns over, in the order the lock was taken. */
  datatype State = State(wire: Bytes, holder: Holder, turns: seq<Turn>)

  const START := State([], Nobody, [])

  /** `sent` is how much of the piece goes out; a send of less than all of it fails. */
  datatype Action = Lock(tid: nat, frame: Frame) | Header(sent: nat, fails: bool) | Body(sent: nat, fails: bool)

  function Piece(s: State): Bytes
    requires s.holder.Writing?
  {
    if s.holder.headerSent then s.holder.frame.Body() else s.holder.frame.Header()
  }

  predicate Enabled(s: State, a: Action) {
    match a
    case Lock(_, f) => s.holder.Nobody?
    case Header(n, fails) =>
      s.holder.Writing? && !s.holder.headerSent && n <= |Piece(s)| && (!fails ==> n == |Piece(s)|)
    case Body(n, fails) =>
      s.holder.Writing? && s.holder.headerSent && n <= |Piece(s)| && (!fails ==> n == |Piece(s)|)
  }

  /** The turn ends with this much of its frame out. */
  function Over(s: State, sent: nat, ok: bool): State
    requires s.holder.Writing?
  {
    s.(turns := s.turns + [Turn(s.holder.tid, s.holder.frame, sent, ok)], holder := Nobody)
  }

  function Apply(s: State, a: Action): State
    requires Enabled(s, a)
  {
    match a
    case Lock(tid, f) => s.(holder := Writing(tid, f, false))
    case Header(n, fails) =>
      var t := s.(wire := s.wire + Piece(s)[..n]);
      if fails then Over(t, n, false)
      else if |s.holder.frame.payload| == 0 then Over(t, n, true)
      else t.(holder := s.holder.(headerSent := true))
    case Body(n, fails) =>
      var t := s.(wire := s.wire + Piece(s)[..n]);
      Over(t, |s.holder.frame.Header()| + n, !fails)
  }

  predicate Runs(s: State, acts: seq<Action>, t: State)
    decreases |acts|
  {
    if acts == [] then s == t else Enabled(s, acts[0]) && Runs(Apply(s, acts[0]), acts[1..], t)
  }

  /** What the turns put on the wire, one after another. */
  function OutOf(ts: Turns): Bytes {
    if ts == [] then [] else ts[0].Out() + OutOf(ts[1..])
  }

  lemma {:induction false} OutAppend(ts: Turns, t: Turn)
    requires t.Valid()
    ensures OutOf(ts + [t]) == OutOf(ts) + t.Out()
  {
    hide Turn.Out, Turn.Valid;
    if ts == [] {
      assert ts + [t] == [t];
      assert OutOf([t][1..]) == [];
    } else {
      assert (ts + [t])[1..] == ts[1..] + [t];
      OutAppend(ts[1..], t);
      Assoc(ts[0].Out(), OutOf(ts[1..]), t.Out());
    }
  }

  ghost predicate Inv(s: State) {
    && (forall i :: 0 <= i < |s.turns| ==> s.turns[i].Valid())
    && s.wire == OutOf(s.turns) + (if s.holder.Writing? && s.holder.headerSent then s.holder.frame.Header() else [])
  }

  /** A turn that ends adds exactly its own part of its frame to what was on the wire when it began. */
  lemma TurnEnds(s: State, before: Bytes, turn: Turn, out: Bytes)
    requires forall i :: 0 <= i < |s.turns| ==> s.turns[i].Valid()
    requires before == OutOf(s.turns) && turn.Valid() && out == before + turn.Out()
    ensures Inv(s.(wire := out, turns := s.turns + [turn], holder := Nobody))
  {
    hide Turn.Out, Turn.Valid, OutOf;
    OutAppend(s.turns, turn);
    assert OutOf(s.turns + [turn]) + [] == OutOf(s.turns + [turn]);
  }

  lemma Step(s: State, a: Action)
    requires Inv(s) && Enabled(s, a)
    ensures Inv(Apply(s, a))
  {
    hide Frame.Header, Frame.Body, OutOf;
    match a
    case Lock(_, _) =>
    case Header(n, fails) =>
      var f, w := s.holder.frame, OutOf(s.turns);
      assert s.wire == w by { assert w + [] == w; }
      assert f.Wire()[..n] == f.Header()[..n];
      if fails {
        TurnEnds(s, w, Turn(s.holder.tid, f, n, false), Apply(s, a).wire);
      } else if |f.payload| == 0 {
        EmptyBody(f);
        assert f.Wire() == f.Header();
        TurnEnds(s, w, Turn(s.holder.tid, f, n, true), Apply(s, a).wire);
      } else {
        assert f.Header()[..n] == f.Header();
      }
    case Body(n, fails) =>
      var f, w := s.holder.frame, OutOf(s.turns);
      var sent := |f.Header()| + n;
      assert f.Wire()[..sent] == f.Header() + f.Body()[..n];
      Assoc(w, f.Header(), f.Body()[..n]);
      TurnEnds(s, w, Turn(s.holder.tid, f, sent, !fails), Apply(s, a).wire);
  }

  lemma EmptyBody(f: Frame)
    requires f.payload == []
    ensures f.Body() == []
  {
  }

  lemma {:induction false} RunKeepsInv(s: State, acts: seq<Action>, t: State)
    requires Inv(s) && Runs(s, acts, t)
    ensures Inv(t)
    decreases |acts|
  {
    hide Inv, Apply, Enabled;
    if acts != [] {
      Step(s, acts[0]);
      RunKeepsInv(Apply(s, acts[0]), acts[1..], t);
    }
  }

  /** The frames of some turns. */
  function FramesOf(ts: seq<Turn>): (fs: seq<Frame>)
    ensures |fs| == |ts|
  {
    seq(|ts|, i requires 0 <= i < |ts| => ts[i].frame)
  }

  /** Turns that all succeeded put whole frames on the wire. */
  lemma {:induction false} WholeTurns(ts: Turns, rest: Turns)
    requires forall i :: 0 <= i < |ts| ==> ts[i].ok
    ensures OutOf(ts + rest) == WireOf(FramesOf(ts)) + OutOf(rest)
  {
    hide Frame.Wire;
    if ts == [] {
      assert ts + rest == rest;
    } else {
      assert (ts + rest)[1..] == ts[1..] + rest;
      WholeTurns(ts[1..], rest);
      assert FramesOf(ts)[1..] == FramesOf(ts[1..]);
      assert ts[0].Out() == ts[0].frame.Wire();
      Assoc(ts[0].frame.Wire(), WireOf(FramesOf(ts[1..])), OutOf(rest));
    }
  }

  /** In every interleaving, failures included, nobody's bytes mix with another's: when the lock is free the wire
      is each turn's part of its own frame, in the order the lock was taken, and a turn reported as a success put
      out its whole frame. */
  lemma TurnsNeverMix(acts: seq<Action>, t: State)
    requires Runs(START, acts, t) && t.holder.Nobody?
    ensures forall i :: 0 <= i < |t.turns| ==> t.turns[i].Valid()
    ensures t.wire == OutOf(t.turns)
  {
    RunKeepsInv(START, acts, t);
    assert OutOf(t.turns) + [] == OutOf(t.turns);
  }

  lemma FirstTurns(ts: Turns, k: nat)
    requires k <= |ts| && forall i :: 0 <= i < k ==> ts[i].ok
    ensures OutOf(ts) == WireOf(FramesOf(ts[..k])) + OutOf(ts[k..])
    ensures k < |ts| ==> OutOf(ts) == WireOf(FramesOf(ts[..k])) + (ts[k].Out() + OutOf(ts[k + 1..]))
  {
    hide WireOf, Turn.Out, Turn.Valid, FramesOf;
    var done: Turns, rest: Turns := ts[..k], ts[k..];
    assert done + rest == ts;
    WholeTurns(done, rest);
    if k < |ts| {
      assert rest[0] == ts[k] && rest[1..] == ts[k + 1..];
    }
  }

  /** Before the first failure everything is whole: the wire is the frames of the first `k` turns, then the part
      the failing turn got out of its frame, then whatever later turns put out. */
  lemma WholeUntilFailure(acts: seq<Action>, t: State, k: nat)
    requires Runs(START, acts, t) && t.holder.Nobody? && k < |t.turns|
    requires forall i :: 0 <= i < k ==> t.turns[i].ok
    ensures t.turns[k].Valid() && WireOf(FramesOf(t.turns[..k])) + t.turns[k].Out() <= t.wire
  {
    hide WireOf, OutOf, Runs, Turn.Out, Turn.Valid, FramesOf;
    TurnsNeverMix(acts, t);
    FirstTurns(t.turns, k);
    Assoc(WireOf(FramesOf(t.turns[..k])), t.turns[k].Out(), OutOf(t.turns[k + 1..]));
  }

  /** A peer reads all of the data and pings of the turns before the first failure, whatever follows. */
  lemma ReadsUntilFailure(acts: seq<Action>, t: State, k: nat)
    requires Runs(START, acts, t) && t.holder.Nobody? && k <= |t.turns|
    requires forall i :: 0 <= i < k ==> t.turns[i].ok && Plain(t.turns[i].frame)
    ensures var fs := FramesOf(t.turns[..k]);
      DataIn(fs) <= StreamOf(t.wire).data && PingsIn(fs) <= StreamOf(t.wire).pings
  {
    hide StreamOf, WireOf, OutOf, DataIn, PingsIn, Plain, Runs, Turn.Out, Turn.Valid;
    TurnsNeverMix(acts, t);
    FirstTurns(t.turns, k);
    StreamRoundTrip(FramesOf(t.turns[..k]), OutOf(t.turns[k..]));
  }

  /** Without failures a peer reads exactly the data and the pings of all writers, in lock order. */
  lemma WritersEmitWholeFrames(acts: seq<Action>, t: State)
    requires Runs(START, acts, t) && t.holder.Nobody?
    requires forall i :: 0 <= i < |t.turns| ==> t.turns[i].ok && Plain(t.turns[i].frame)
    ensures var fs := FramesOf(t.turns);
      t.wire == WireOf(fs) && StreamOf(t.wire) == Stream(DataIn(fs), PingsIn(fs), Short)
  {
    hide StreamOf, Frame.Wire, WireOf, DataIn, PingsIn;
    TurnsNeverMix(acts, t);
    var fs := FramesOf(t.turns);
    WholeTurns(t.turns, []);
    assert t.turns + [] == t.turns && OutOf([]) == [] && WireOf(fs) + [] == WireOf(fs);
    StreamRoundTrip(fs, []);
    EmptyStream();
    assert DataIn(fs) + [] == DataIn(fs) && PingsIn(fs) + [] == PingsIn(fs);
  }

  lemma EmptyStream()
    ensures StreamOf([]) == Stream([], [], Short)
  {
  }

  lemma {:induction false} RunMore(s: State, acts: seq<Action>, t: State, a: Action)
    requires Runs(s, acts, t) && Enabled(t, a)
    ensures Runs(s, acts + [a], Apply(t, a))
    decreases |acts|
  {
    hide Apply, Enabled;
    if acts == [] {
      assert [] + [a] == [a] && [a][1..] == [];
      assert Runs(Apply(t, a), [], Apply(t, a));
    } else {
      assert (acts + [a])[1..] == acts[1..] + [a] && (acts + [a])[0] == acts[0];
      RunMore(Apply(s, acts[0]), acts[1..], t, a);
    }
  }

  /** Every sequence of frames can be written, each in a turn that succeeds. */
  lemma {:induction false} EveryoneCanWrite(fs: seq<Frame>) returns (acts: seq<Action>, t: State)
    requires forall i :: 0 <= i < |fs| ==> fs[i].payload != []
    ensures Runs(START, acts, t) && t.holder.Nobody? && t.wire == WireOf(fs)
    ensures |t.turns| == |fs| && forall i :: 0 <= i < |fs| ==> t.turns[i] == Turn(i, fs[i], |fs[i].Wire()|, true)
  {
    hide Frame.Header, Frame.Body;
    if fs == [] {
      acts, t := [], START;
    } else {
      var n := |fs| - 1;
      var f := fs[n];
      acts, t := EveryoneCanWrite(fs[..n]);
      WireAppend(fs[..n], f);
      assert fs == fs[..n] + [f];
      var h, b := Header(|f.Header()|, false), Body(|f.Body()|, false);
      RunMore(START, acts, t, Lock(n, f));
      var u := Apply(t, Lock(n, f));
      RunMore(START, acts + [Lock(n, f)], u, h);
      var v := Apply(u, h);
      RunMore(START, acts + [Lock(n, f)] + [h], v, b);
      assert f.Header()[..|f.Header()|] == f.Header() && f.Body()[..|f.Body()|] == f.Body();
      Assoc(t.wire, f.Header(), f.Body());
      acts, t := acts + [Lock(n, f)] + [h] + [b], Apply(v, b);
    }
  }

  /** A send may fail after any part of its piece. */
  lemma SendsCanFail(s: State, n: nat)
    requires s.holder.Writing? && !s.holder.headerSent && n <= |s.holder.frame.Header()|
    ensures Enabled(s, Header(n, true)) && Apply(s, Header(n, true)).wire == s.wire + s.holder.frame.Header()[..n]
  {
  }
}
