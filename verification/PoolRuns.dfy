/** Every interleaving of the pool's users: background warming, dialling, lease holders, closing of leases
    and of the pool. One action is one section of code that runs under the pool's lock, inside a once-guard
    or on a transport that one goroutine holds. */
module PoolRuns {
  import opened Bytes
  import opened SnellFrame
  import opened SnellLink
  import opened Pool

  // ---- state ----

  /** Where a transport is. An auxiliary variable: `Inv` ties it to the collections that really hold it. */
  datatype Place = Warming | Unchecked | InHand | InIdle | Leased(l: nat) | Dropping | Dead

  /** A transport: its session, all we have sent on it, how often it was taken. */
  datatype Transport = Transport(link: Link, out: seq<Sym>, takes: nat, place: Place)

  /** closeWriteOnce and its results. */
  datatype HalfClosing = NotCalled | Running(reusable: bool) | Finished(ok: bool, failed: bool)

  /** closeOnce: not called, waiting for closeWrite, about to put back, over. */
  datatype Closing = Open | Waiting | PuttingBack | Done

  /** A pooledConn. `req` is its CONNECT, `want` the data the peer sends on this stream, `got` and `wrote` what the
      holder has read and written; `broken` says that a Write has failed. */
  datatype Lease = Lease(id: Id, uses: nat, holds: bool, reuse: Reuse, half: HalfClosing, closing: Closing,
                         want: Bytes, got: Bytes, eof: bool, failed: bool,
                         req: Bytes, wrote: Bytes, broken: bool)

  /** `reuse` says whether the node's transports are warmed and reused. */
  datatype State = State(
    reuse: bool, now: int, idle: seq<Idle>, closed: bool,
    warming: set<Id>, unchecked: set<Id>, inHand: map<Id, nat>, dropping: set<Id>, dead: set<Id>,
    leases: seq<Lease>, trans: seq<Transport>)

  function Start(reuse: bool): State {
    State(reuse, 0, [], false, {}, {}, map[], {}, {}, [], [])
  }

  /** What Warmup has sent on a transport when it is handed over. */
  function Greeting(reuse: bool): seq<Sym> {
    if reuse then Data([1, 0, 0]) else []
  }

  const QUIET := Link(false, false, [])

  /** The peer's whole answer to one CONNECT: reply, data, one zero chunk. */
  function Answer(want: Bytes): seq<Sym> {
    [B(0)] + (Data(want) + [Zero])
  }

  // ---- actions ----

  datatype Action =
    | Tick(d: nat)
    | WarmMake
    | WarmPut(id: Id)
    | Pop
    | Make
    | Recheck(id: Id)
    | GiveUp(id: Id, part: Bytes)
    | Connect(id: Id, req: Bytes, want: Bytes, arrives: seq<Sym>)
    | Write(l: nat, data: Bytes, n: nat, fails: bool)
    | Read(l: nat, size: nat, out: ReadOutcome, after: Link)
    | BeginHalf(l: nat)
    | EndHalf(l: nat, failed: bool)
    | CallClose(l: nat)
    | Decide(l: nat, deadlineFails: bool)
    | PutBack(l: nat)
    | ClosePool
    | Drop(id: Id)

  predicate Holds(s: State, l: nat) {
    l < |s.leases| && s.leases[l].holds && s.leases[l].id < |s.trans|
  }

  /** What the code, and the discipline of lease holders, allow next: holders stop reading at the end of the stream
      or an error, never write nothing, write nothing after CloseWrite, and do nothing after Close. Once a write on
      a connection has failed, a half-close on it fails too. */
  predicate Enabled(s: State, a: Action) {
    match a
    case Tick(_) => true
    case WarmMake => true
    case WarmPut(id) => id in s.warming && id < |s.trans|
    case Pop => true
    case Make => true
    case Recheck(id) => id in s.unchecked && id < |s.trans|
    case GiveUp(id, _) => id in s.inHand && id < |s.trans|
    case Connect(id, _, want, arrives) => id in s.inHand && id < |s.trans| && arrives <= Answer(want)
    case Read(l, size, out, after) =>
      && Holds(s, l) && s.leases[l].closing.Open? && !s.leases[l].eof && !s.leases[l].failed
      && ReadStep(s.trans[s.leases[l].id].link, size, out, after)
    case BeginHalf(l) => l < |s.leases| && s.leases[l].half.NotCalled? && !s.leases[l].closing.Done?
    case Write(l, data, n, fails) =>
      && Holds(s, l) && s.leases[l].closing.Open? && s.leases[l].half.NotCalled?
      && data != [] && n <= |data| && (fails || n == |data|)
    case EndHalf(l, failed) =>
      Holds(s, l) && s.leases[l].half.Running? && (s.leases[l].half.reusable && s.leases[l].broken ==> failed)
    case CallClose(l) => l < |s.leases| && s.leases[l].closing.Open?
    case Decide(l, _) => l < |s.leases| && s.leases[l].closing.Waiting? && s.leases[l].half.Finished?
                         && (s.leases[l].holds ==> Holds(s, l))
    case PutBack(l) => Holds(s, l) && s.leases[l].closing.PuttingBack?
    case ClosePool => true
    case Drop(id) => id in s.dropping && id < |s.trans|
  }

  /** The listed transports are now at `p`. */
  function Move(ts: seq<Transport>, ids: set<Id>, p: Place): (r: seq<Transport>)
    ensures |r| == |ts|
    ensures forall i :: 0 <= i < |ts| ==> r[i] == if i in ids then ts[i].(place := p) else ts[i]
  {
    seq(|ts|, i requires 0 <= i < |ts| => if i in ids then ts[i].(place := p) else ts[i])
  }

  function MoveOne(ts: seq<Transport>, id: Id, p: Place): seq<Transport>
    requires id < |ts|
  {
    ts[id := ts[id].(place := p)]
  }

  function IdSet(es: seq<Idle>): set<Id> {
    set e | e in es :: e.id
  }

  function Apply(s: State, a: Action): State
    requires Enabled(s, a)
  {
    match a
    case Tick(d) => s.(now := s.now + d)
    case WarmMake =>
      s.(warming := s.warming + {|s.trans|}, trans := s.trans + [Transport(QUIET, Greeting(s.reuse), 0, Warming)])
    case WarmPut(id) => ApplyPut(s.(warming := s.warming - {id}), id, 0)
    case Pop => ApplyPop(s)
    case Make =>
      s.(unchecked := s.unchecked + {|s.trans|}, trans := s.trans + [Transport(QUIET, Greeting(s.reuse), 0, Unchecked)])
    case Recheck(id) =>
      if s.closed then
        s.(unchecked := s.unchecked - {id}, dropping := s.dropping + {id}, trans := MoveOne(s.trans, id, Dropping))
      else
        s.(unchecked := s.unchecked - {id}, inHand := s.inHand[id := 1],
           trans := s.trans[id := s.trans[id].(place := InHand, takes := s.trans[id].takes + 1)])
    case GiveUp(id, part) =>
      s.(inHand := s.inHand - {id}, dropping := s.dropping + {id},
         trans := s.trans[id := s.trans[id].(place := Dropping, out := s.trans[id].out + Data(part))])
    case Connect(id, req, want, arrives) => ApplyConnect(s, id, req, want, arrives)
    case Write(l, data, n, fails) => ApplyWrite(s, l, data[..n], fails)
    case Read(l, size, out, after) => ApplyRead(s, l, out, after)
    case BeginHalf(l) =>
      var e := s.leases[l];
      s.(leases := s.leases[l := e.(half := Running(e.reuse.Reusable?), reuse := Spent)])
    case EndHalf(l, failed) => ApplyEndHalf(s, l, failed)
    case CallClose(l) => s.(leases := s.leases[l := s.leases[l].(closing := Waiting)])
    case Decide(l, deadlineFails) => ApplyDecide(s, l, deadlineFails)
    case PutBack(l) =>
      var e := s.leases[l];
      ApplyPut(s.(leases := s.leases[l := e.(closing := Done, holds := false)]), e.id, e.uses)
    case ClosePool =>
      s.(closed := true, idle := [], dropping := s.dropping + IdSet(s.idle),
         trans := Move(s.trans, IdSet(s.idle), Dropping))
    case Drop(id) =>
      s.(dropping := s.dropping - {id}, dead := s.dead + {id}, trans := MoveOne(s.trans, id, Dead))
  }

  /** Pool.put, and the close that follows a refusal. */
  function ApplyPut(s: State, id: Id, uses: nat): State
    requires id < |s.trans|
  {
    if Accepts(s.idle, s.closed, uses) then
      s.(idle := s.idle + [Idle(id, s.now, uses)], trans := MoveOne(s.trans, id, InIdle))
    else
      s.(dropping := s.dropping + {id}, trans := MoveOne(s.trans, id, Dropping))
  }

  /** Pool.pop: expired entries die under the lock, the entry taken is used once more. */
  function ApplyPop(s: State): State {
    var p := PopOf(s.idle, s.now);
    var gone := IdSet(p.expired);
    var t := s.(idle := p.rest, dead := s.dead + gone, trans := Move(s.trans, gone, Dead));
    match p.taken
    case None => t
    case Some(e) =>
      if e.id >= |t.trans| then t
      else t.(inHand := t.inHand[e.id := e.uses + 1],
              trans := t.trans[e.id := t.trans[e.id].(place := InHand, takes := t.trans[e.id].takes + 1)])
  }

  /** The CONNECT is out; `arrives` is as much of the peer's answer as will ever come. */
  function ApplyConnect(s: State, id: Id, req: Bytes, want: Bytes, arrives: seq<Sym>): State
    requires id in s.inHand && id < |s.trans|
  {
    var t := s.trans[id];
    s.(inHand := s.inHand - {id}, leases := s.leases + [NewLease(s, id, req, want)],
       trans := s.trans[id := t.(place := Leased(|s.leases|), out := t.out + Data(req),
                                 link := t.link.(input := t.link.input + arrives))])
  }

  function NewLease(s: State, id: Id, req: Bytes, want: Bytes): Lease
    requires id in s.inHand
  {
    Lease(id, s.inHand[id], true, if s.reuse then Reusable else New, NotCalled, Open, want, [], false, false,
          req, [], false)
  }

  /** `sent` is what the write got out in whole chunks. */
  function ApplyWrite(s: State, l: nat, sent: Bytes, fails: bool): State
    requires Holds(s, l)
  {
    var e := s.leases[l];
    s.(leases := s.leases[l := e.(wrote := e.wrote + sent, broken := e.broken || fails)],
       trans := s.trans[e.id := s.trans[e.id].(out := s.trans[e.id].out + Data(sent))])
  }

  function ApplyRead(s: State, l: nat, out: ReadOutcome, after: Link): State
    requires Holds(s, l)
  {
    var e := s.leases[l];
    var f := match out
      case Received(d) => e.(got := e.got + d)
      case EndOfStream => e.(eof := true)
      case ReadError => e.(failed := true);
    s.(leases := s.leases[l := f], trans := s.trans[e.id := s.trans[e.id].(link := after)])
  }

  /** closeWrite's body: close a transport that may not be reused, half-close one that may. */
  function ApplyEndHalf(s: State, l: nat, failed: bool): State
    requires Holds(s, l) && s.leases[l].half.Running?
  {
    var e := s.leases[l];
    if !e.half.reusable then
      s.(leases := s.leases[l := e.(half := Finished(false, failed), holds := false)],
         dead := s.dead + {e.id}, trans := MoveOne(s.trans, e.id, Dead))
    else
      s.(leases := s.leases[l := e.(half := Finished(true, failed))],
         trans := s.trans[e.id := s.trans[e.id].(out := s.trans[e.id].out + (if failed then [] else [Zero]))])
  }

  /** Close after closeWrite: give the transport up, or reset the reply and go on to put it back. */
  function ApplyDecide(s: State, l: nat, deadlineFails: bool): State
    requires l < |s.leases| && s.leases[l].half.Finished? && (s.leases[l].holds ==> Holds(s, l))
  {
    var e := s.leases[l];
    if !e.holds then s.(leases := s.leases[l := e.(closing := Done)])
    else if e.half.failed || !e.half.ok || !s.trans[e.id].link.peerClosed || deadlineFails then
      s.(leases := s.leases[l := e.(closing := Done, holds := false)],
         dropping := s.dropping + {e.id}, trans := MoveOne(s.trans, e.id, Dropping))
    else
      s.(leases := s.leases[l := e.(closing := PuttingBack)],
         trans := s.trans[e.id := s.trans[e.id].(link := Link(false, false, s.trans[e.id].link.input))])
  }

  // ---- the invariant ----

  ghost predicate IsIdle(s: State, id: Id) {
    exists e :: e in s.idle && e.id == id
  }

  /** A transport is in the collection its place names and in no other. */
  ghost predicate PlaceOk(s: State, id: Id)
    requires id < |s.trans|
  {
    var p := s.trans[id].place;
    && (id in s.warming <==> p.Warming?)
    && (id in s.unchecked <==> p.Unchecked?)
    && (id in s.inHand <==> p.InHand?)
    && (id in s.dropping <==> p.Dropping?)
    && (id in s.dead <==> p.Dead?)
    && (IsIdle(s, id) <==> p.InIdle?)
    && (p.Leased? ==> p.l < |s.leases| && s.leases[p.l].holds && s.leases[p.l].id == id)
  }

  ghost predicate Distinct(idle: seq<Idle>) {
    forall i, j :: 0 <= i < j < |idle| ==> idle[i].id != idle[j].id
  }

  /** Between streams: nothing unread, no flag set. */
  predicate Clean(t: Transport) {
    t.link == QUIET
  }

  // ---- what a transport has been sent ----

  /** Our zero chunk of this lease is out. */
  predicate Ended(e: Lease) {
    e.half == Finished(true, false)
  }

  /** A lease's own part: its CONNECT, what its holder wrote, and one zero chunk once it is half-closed. */
  function Segment(e: Lease): seq<Sym> {
    Data(e.req) + Data(e.wrote) + (if Ended(e) then [Zero] else [])
  }

  /** The parts of the leases of one transport, in order. */
  function SentBy(es: seq<Lease>, id: Id): seq<Sym> {
    if es == [] then []
    else SentBy(es[..|es| - 1], id) + (if es[|es| - 1].id == id then Segment(es[|es| - 1]) else [])
  }

  /** What is sent on a transport in use or in waiting: the greeting, then lease by lease; every lease before the
      present one has ended its stream. */
  ghost predicate OutOk(s: State, id: Id)
    requires id < |s.trans|
  {
    var t := s.trans[id];
    t.place.Dropping? || t.place.Dead? || (
      && t.out == Greeting(s.reuse) + SentBy(s.leases, id)
      && (forall l :: 0 <= l < |s.leases| && s.leases[l].id == id && !s.leases[l].holds ==> Ended(s.leases[l]))
      && (t.place.Leased? ==> LastOf(s.leases, t.place.l, id)))
  }

  /** No later lease is of this transport. */
  ghost predicate LastOf(es: seq<Lease>, l: nat, id: Id) {
    forall m :: l < m < |es| ==> es[m].id != id
  }

  /** A holder has read a prefix of its own stream and nothing else; at the end of the stream, all of it. A stream
      ended by our zero chunk has had no failed write. */
  predicate OwnBytes(e: Lease) {
    e.got <= e.want && (e.eof ==> e.got == e.want) && (Ended(e) ==> !e.broken)
  }

  /** What is left to read is the rest of the lease's own answer. */
  predicate LeaseInput(e: Lease, k: Link) {
    if e.closing.PuttingBack? then k == QUIET
    else if e.eof then k.input == [] && k.peerClosed
    else
      && !k.peerClosed
      && (e.failed || if k.reply then Data(e.got) + k.input <= Data(e.want) + [Zero]
                      else e.got == [] && k.input <= Answer(e.want))
  }

  predicate LeaseOk(e: Lease, t: Transport) {
    && e.uses == t.takes
    && (e.half.NotCalled? <==> !e.reuse.Spent?)
    && LeaseInput(e, t.link)
    && (e.half.Finished? ==> e.half.ok)
    && (e.closing.PuttingBack? ==> e.half.Finished? && !e.half.failed && e.eof)
    && !e.closing.Done?
  }

  /** What a transport at each place looks like. */
  ghost predicate TransportOk(s: State, id: Id)
    requires id < |s.trans|
  {
    var t := s.trans[id];
    && t.takes <= MAX_USES
    && match t.place
       case Warming => Clean(t) && t.takes == 0
       case Unchecked => Clean(t) && t.takes == 0
       case InHand => Clean(t) && (id in s.inHand ==> s.inHand[id] == t.takes)
       case InIdle => Clean(t) && forall e :: e in s.idle && e.id == id ==> e.uses == t.takes
       case Leased(l) => l < |s.leases| && LeaseOk(s.leases[l], t)
       case Dropping => true
       case Dead => true
  }

  /** A lease that holds its transport is the one the transport's place names. */
  ghost predicate LeasePlaced(s: State, l: nat)
    requires l < |s.leases|
  {
    var e := s.leases[l];
    && e.id < |s.trans|
    && (e.holds ==> s.trans[e.id].place == Leased(l))
    && OwnBytes(e)
  }

  ghost predicate InRange(s: State) {
    && (forall id :: id in s.warming ==> id < |s.trans|)
    && (forall id :: id in s.unchecked ==> id < |s.trans|)
    && (forall id :: id in s.inHand ==> id < |s.trans|)
    && (forall id :: id in s.dropping ==> id < |s.trans|)
    && (forall id :: id in s.dead ==> id < |s.trans|)
    && (forall e :: e in s.idle ==> e.id < |s.trans|)
  }

  ghost predicate Inv(s: State) {
    && InRange(s)
    && (forall id :: 0 <= id < |s.trans| ==> PlaceOk(s, id))
    && (forall id :: 0 <= id < |s.trans| ==> TransportOk(s, id))
    && (forall id :: 0 <= id < |s.trans| ==> OutOk(s, id))
    && (forall l {:trigger s.leases[l]} {:trigger LeasePlaced(s, l)} :: 0 <= l < |s.leases| ==> LeasePlaced(s, l))
    && Distinct(s.idle)
    && WellKept(s.idle, s.now)
    && (s.closed ==> s.idle == [])
  }

  // ---- an action changes little ----

  /** Outside `ids`, `t` is `s`. */
  ghost predicate Agrees(s: State, t: State, ids: set<Id>) {
    && t.reuse == s.reuse
    && |s.trans| <= |t.trans|
    && (forall j :: 0 <= j < |s.trans| && j !in ids ==> t.trans[j] == s.trans[j])
    && (forall j :: |s.trans| <= j < |t.trans| ==> j in ids)
    && (forall j :: j in ids ==> j < |t.trans|)
    && t.warming - ids == s.warming - ids
    && t.unchecked - ids == s.unchecked - ids
    && t.inHand - ids == s.inHand - ids
    && t.dropping - ids == s.dropping - ids
    && t.dead - ids == s.dead - ids
    && (forall e :: e !in s.idle && e in t.idle ==> e.id in ids)
    && (forall e :: e in s.idle && e !in t.idle ==> e.id in ids)
    && |s.leases| <= |t.leases|
    && (forall l :: 0 <= l < |s.leases| && s.leases[l].id !in ids ==> t.leases[l] == s.leases[l])
    && (forall l :: 0 <= l < |s.leases| ==> t.leases[l].id == s.leases[l].id)
    && (forall l :: |s.leases| <= l < |t.leases| ==> t.leases[l].id in ids)
  }

  lemma PlaceStays(s: State, t: State, ids: set<Id>, j: Id)
    requires Agrees(s, t, ids) && j < |s.trans| && j !in ids
    requires PlaceOk(s, j)
    ensures PlaceOk(t, j)
  {
    assert j in t.warming <==> j in t.warming - ids;
    assert j in t.unchecked <==> j in t.unchecked - ids;
    assert j in t.inHand <==> j in t.inHand - ids;
    assert j in t.dropping <==> j in t.dropping - ids;
    assert j in t.dead <==> j in t.dead - ids;
    if IsIdle(s, j) {
      var e :| e in s.idle && e.id == j;
      assert e in t.idle;
    }
    if IsIdle(t, j) {
      var e :| e in t.idle && e.id == j;
      assert e in s.idle;
    }
  }

  lemma TransportStays(s: State, t: State, ids: set<Id>, j: Id)
    requires Agrees(s, t, ids) && j < |s.trans| && j !in ids
    requires PlaceOk(s, j) && TransportOk(s, j)
    ensures TransportOk(t, j)
  {
    if s.trans[j].place.InHand? {
      assert (t.inHand - ids)[j] == (s.inHand - ids)[j];
    }
  }

  /** Leases whose parts do not change leave what is sent alone. */
  lemma {:induction false} SentSame(a: seq<Lease>, b: seq<Lease>, id: Id)
    requires |a| <= |b|
    requires forall i :: 0 <= i < |a| ==> b[i].id == a[i].id && (a[i].id == id ==> Segment(b[i]) == Segment(a[i]))
    requires forall i :: |a| <= i < |b| ==> b[i].id != id
    ensures SentBy(b, id) == SentBy(a, id)
    decreases |b|
  {
    hide Segment;
    if b != [] {
      SentSame(if |a| == |b| then a[..|a| - 1] else a, b[..|b| - 1], id);
    }
  }

  /** What the last lease of a transport adds to its part comes last. */
  lemma SentMore(a: seq<Lease>, b: seq<Lease>, l: nat, more: seq<Sym>)
    requires l < |a| == |b| && b == a[l := b[l]] && b[l].id == a[l].id && LastOf(a, l, a[l].id)
    requires Segment(b[l]) == Segment(a[l]) + more
    ensures SentBy(b, a[l].id) == SentBy(a, a[l].id) + more
  {
    hide Segment, SentBy;
    var id := a[l].id;
    SentSame(a[..l + 1], a, id);
    SentSame(b[..l + 1], b, id);
    assert a[..l + 1][..l] == a[..l] == b[..l] == b[..l + 1][..l];
    SentLast(a[..l + 1], id);
    SentLast(b[..l + 1], id);
    Assoc(SentBy(a[..l], id), Segment(a[l]), more);
  }

  lemma SentLast(es: seq<Lease>, id: Id)
    requires es != []
    ensures SentBy(es, id) ==
      SentBy(es[..|es| - 1], id) + (if es[|es| - 1].id == id then Segment(es[|es| - 1]) else [])
  {
  }

  lemma {:induction false} SentNothing(es: seq<Lease>, id: Id)
    requires forall i :: 0 <= i < |es| ==> es[i].id != id
    ensures SentBy(es, id) == []
  {
    if es != [] {
      SentNothing(es[..|es| - 1], id);
    }
  }

  /** Leases whose parts and holds do not change leave a transport's sending in order, wherever it goes next. */
  lemma OutSame(s: State, t: State, id: Id)
    requires id < |s.trans| && id < |t.trans| && t.reuse == s.reuse
    requires t.trans[id].out == s.trans[id].out && OutOk(s, id)
    requires s.trans[id].place.Dropping? || s.trans[id].place.Dead? ==>
      t.trans[id].place.Dropping? || t.trans[id].place.Dead?
    requires |t.leases| == |s.leases|
    requires forall i :: 0 <= i < |s.leases| ==> t.leases[i].id == s.leases[i].id
    requires forall i :: 0 <= i < |s.leases| && s.leases[i].id == id ==>
      Segment(t.leases[i]) == Segment(s.leases[i]) && Ended(t.leases[i]) == Ended(s.leases[i])
      && (t.leases[i].holds || t.leases[i].holds == s.leases[i].holds || Ended(s.leases[i]))
    requires t.trans[id].place.Leased? ==> t.trans[id].place == s.trans[id].place
    ensures OutOk(t, id)
  {
    hide Segment, SentBy;
    SentSame(s.leases, t.leases, id);
  }

  lemma OutStays(s: State, t: State, ids: set<Id>, j: Id)
    requires Agrees(s, t, ids) && j < |s.trans| && j !in ids && OutOk(s, j)
    ensures OutOk(t, j)
  {
    hide Segment, SentBy;
    SentSame(s.leases, t.leases, j);
  }

  /** An action that only disturbs `ids` keeps the invariant if it keeps it there. */
  lemma Local(s: State, t: State, ids: set<Id>)
    requires Inv(s) && Agrees(s, t, ids)
    requires forall j :: j in ids ==> PlaceOk(t, j) && TransportOk(t, j) && OutOk(t, j)
    requires forall l :: 0 <= l < |t.leases| && t.leases[l].id in ids ==> LeasePlaced(t, l)
    requires Distinct(t.idle) && WellKept(t.idle, t.now) && (t.closed ==> t.idle == [])
    ensures Inv(t)
  {
    hide PlaceOk, TransportOk, OutOk, WellKept, Distinct;
    forall j | 0 <= j < |t.trans|
      ensures PlaceOk(t, j) && TransportOk(t, j) && OutOk(t, j)
    {
      if j !in ids {
        PlaceStays(s, t, ids, j);
        TransportStays(s, t, ids, j);
        OutStays(s, t, ids, j);
      }
    }
    forall l | 0 <= l < |t.leases|
      ensures LeasePlaced(t, l)
    {
      if t.leases[l].id !in ids {
        assert LeasePlaced(s, l);
      }
    }
    RangeStays(s, t, ids);
  }

  lemma RangeStays(s: State, t: State, ids: set<Id>)
    requires InRange(s) && Agrees(s, t, ids)
    ensures InRange(t)
  {
    forall id | id in t.warming && id !in ids ensures id < |t.trans| { assert id in t.warming - ids; }
    forall id | id in t.unchecked && id !in ids ensures id < |t.trans| { assert id in t.unchecked - ids; }
    forall id | id in t.inHand && id !in ids ensures id < |t.trans| { assert id in t.inHand - ids; }
    forall id | id in t.dropping && id !in ids ensures id < |t.trans| { assert id in t.dropping - ids; }
    forall id | id in t.dead && id !in ids ensures id < |t.trans| { assert id in t.dead - ids; }
  }

  lemma InvStart(reuse: bool)
    ensures Inv(Start(reuse))
  {
  }

  /** No lease is of a transport that is yet to be made. */
  lemma NoLease(s: State)
    requires Inv(s)
    ensures forall l :: 0 <= l < |s.leases| ==> s.leases[l].id != |s.trans|
    ensures SentBy(s.leases, |s.trans|) == []
  {
    hide PlaceOk, TransportOk, OutOk, WellKept, Distinct, SentBy;
    forall l | 0 <= l < |s.leases|
      ensures s.leases[l].id != |s.trans|
    {
      assert LeasePlaced(s, l);
    }
    SentNothing(s.leases, |s.trans|);
  }

  lemma StepMake(s: State, a: Action)
    requires Inv(s) && Enabled(s, a) && (a.WarmMake? || a.Make?)
    ensures Inv(Apply(s, a))
  {
    var t := Apply(s, a);
    NoLease(s);
    NewPlace(s, t);
    hide WellKept, Distinct, SentBy, LeasePlaced, TransportOk, PlaceOk;
    assert Greeting(s.reuse) + [] == Greeting(s.reuse);
    assert OutOk(t, |s.trans|);
    NewFits(t, |s.trans|);
    hide OutOk;
    Local(s, t, {|s.trans|});
  }

  lemma NewPlace(s: State, t: State)
    requires Inv(s) && (t == Apply(s, WarmMake) || t == Apply(s, Make))
    ensures |t.trans| == |s.trans| + 1 && PlaceOk(t, |s.trans|)
  {
    hide WellKept, Distinct, TransportOk, OutOk, PlaceOk, LeasePlaced;
    var id := |s.trans|;
    assert id !in s.warming && id !in s.unchecked && id !in s.inHand && id !in s.dropping && id !in s.dead;
    assert !IsIdle(t, id);
    FreshPlace(t, id);
  }

  lemma FreshPlace(t: State, id: Id)
    requires id < |t.trans| && !IsIdle(t, id) && id !in t.inHand && id !in t.dropping && id !in t.dead
    requires var p := t.trans[id].place;
      && (p.Warming? || p.Unchecked?) && (id in t.warming <==> p.Warming?) && (id in t.unchecked <==> p.Unchecked?)
    ensures PlaceOk(t, id)
  {
  }

  lemma NewFits(t: State, id: Id)
    requires id < |t.trans| && Clean(t.trans[id]) && t.trans[id].takes == 0
    requires t.trans[id].place.Warming? || t.trans[id].place.Unchecked?
    ensures TransportOk(t, id)
  {
  }

  lemma StepRecheck(s: State, id: Id)
    requires Inv(s) && Enabled(s, Recheck(id))
    ensures Inv(Apply(s, Recheck(id)))
  {
    hide WellKept, OutOk;
    assert PlaceOk(s, id) && TransportOk(s, id) && OutOk(s, id);
    OutSame(s, Apply(s, Recheck(id)), id);
    Local(s, Apply(s, Recheck(id)), {id});
  }

  lemma StepGiveUp(s: State, id: Id, part: Bytes)
    requires Inv(s) && Enabled(s, GiveUp(id, part))
    ensures Inv(Apply(s, GiveUp(id, part)))
  {
    hide WellKept, SentBy;
    assert PlaceOk(s, id) && TransportOk(s, id);
    Local(s, Apply(s, GiveUp(id, part)), {id});
  }

  lemma StepDrop(s: State, id: Id)
    requires Inv(s) && Enabled(s, Drop(id))
    ensures Inv(Apply(s, Drop(id)))
  {
    hide WellKept, SentBy;
    assert PlaceOk(s, id) && TransportOk(s, id);
    Local(s, Apply(s, Drop(id)), {id});
  }

  /** A new lease is the last of its transport and begins with its CONNECT. */
  lemma OutConnect(s: State, id: Id, req: Bytes, want: Bytes, arrives: seq<Sym>)
    requires Inv(s) && Enabled(s, Connect(id, req, want, arrives))
    ensures OutOk(ApplyConnect(s, id, req, want, arrives), id)
  {
    hide SentBy;
    var t := ApplyConnect(s, id, req, want, arrives);
    assert PlaceOk(s, id) && OutOk(s, id);
    forall l | 0 <= l < |s.leases| && s.leases[l].id == id
      ensures !s.leases[l].holds
    {
      assert LeasePlaced(s, l);
    }
    var e := NewLease(s, id, req, want);
    assert t.leases[..|s.leases|] == s.leases && t.leases[|s.leases|] == e;
    SentLast(t.leases, id);
    assert Segment(e) == Data(req);
    Assoc(Greeting(s.reuse), SentBy(s.leases, id), Data(req));
  }

  lemma StepConnect(s: State, id: Id, req: Bytes, want: Bytes, arrives: seq<Sym>)
    requires Inv(s) && Enabled(s, Connect(id, req, want, arrives))
    ensures Inv(ApplyConnect(s, id, req, want, arrives))
  {
    hide WellKept, OutOk;
    assert PlaceOk(s, id) && TransportOk(s, id);
    assert [] + arrives == arrives;
    OutConnect(s, id, req, want, arrives);
    Local(s, ApplyConnect(s, id, req, want, arrives), {id});
  }

  lemma StepTick(s: State, d: nat)
    requires Inv(s)
    ensures Inv(Apply(s, Tick(d)))
  {
    Local(s, Apply(s, Tick(d)), {});
  }

  // ---- putting back ----

  lemma AppendIdle(idle: seq<Idle>, e: Idle, now: int)
    requires Distinct(idle) && WellKept(idle, now) && |idle| < MAX_IDLE
    requires e.used == now && e.uses < MAX_USES && forall x :: x in idle ==> x.id != e.id
    ensures Distinct(idle + [e]) && WellKept(idle + [e], now)
  {
  }

  /** The leases of a transport that is given back have all ended their streams. */
  ghost predicate OutKept(s: State, u: State, id: Id)
    requires id < |s.trans|
  {
    && OutOk(s, id) && !s.trans[id].place.Dropping? && !s.trans[id].place.Dead?
    && SentBy(u.leases, id) == SentBy(s.leases, id)
    && forall l :: 0 <= l < |u.leases| && u.leases[l].id == id ==> Ended(u.leases[l])
  }

  lemma OutKeeps(s: State, u: State, t: State, id: Id)
    requires id < |s.trans| && id < |t.trans| && t.trans[id].out == s.trans[id].out
    requires u.reuse == s.reuse && t.reuse == s.reuse && t.leases == u.leases && OutKept(s, u, id)
    requires !t.trans[id].place.Leased?
    ensures OutOk(t, id)
  {
    hide SentBy, Ended;
  }

  /** Whoever held `id` has given it up in `u`: no collection and no lease has it. */
  ghost predicate GivenUp(s: State, u: State, id: Id, uses: nat) {
    && id < |s.trans| == |u.trans|
    && Agrees(s, u, {id}) && u.trans == s.trans && u.idle == s.idle && u.now == s.now && u.closed == s.closed
    && id !in u.warming && id !in u.unchecked && id !in u.inHand && id !in s.dropping && id !in u.dead
    && u.dropping == s.dropping && !IsIdle(s, id)
    && Clean(s.trans[id]) && s.trans[id].takes == uses <= MAX_USES
    && (forall l :: 0 <= l < |u.leases| && u.leases[l].id == id ==> OwnBytes(u.leases[l]) && !u.leases[l].holds)
    && OutKept(s, u, id)
  }

  lemma PutIn(s: State, u: State, id: Id, uses: nat)
    requires Inv(s) && GivenUp(s, u, id, uses) && Accepts(u.idle, u.closed, uses)
    ensures Inv(ApplyPut(u, id, uses))
  {
    hide OutOk, OutKept, TransportOk, OwnBytes;
    var t, e := ApplyPut(u, id, uses), Idle(id, u.now, uses);
    OutKeeps(s, u, t, id);
    AppendIdle(s.idle, e, s.now);
    hide WellKept, Distinct;
    assert forall x :: x in t.idle <==> x in s.idle || x == e;
    assert IsIdle(t, id);
    PutFits(t, id, uses);
    Local(s, t, {id});
  }

  /** A transport just put is what an idle one must be. */
  lemma PutFits(t: State, id: Id, uses: nat)
    requires id < |t.trans| && t.trans[id].place.InIdle? && Clean(t.trans[id]) && t.trans[id].takes == uses <= MAX_USES
    requires forall e :: e in t.idle && e.id == id ==> e.uses == uses
    ensures TransportOk(t, id)
  {
  }

  lemma PutOut(s: State, u: State, id: Id, uses: nat)
    requires Inv(s) && GivenUp(s, u, id, uses) && !Accepts(u.idle, u.closed, uses)
    ensures Inv(ApplyPut(u, id, uses))
  {
    hide WellKept, Distinct, OutOk, OutKept, OwnBytes;
    OutKeeps(s, u, ApplyPut(u, id, uses), id);
    Local(s, ApplyPut(u, id, uses), {id});
  }

  /** Pool.put by whoever holds `id`; `u` is the state once that hold is given up. */
  lemma StepPut(s: State, u: State, id: Id, uses: nat)
    requires Inv(s) && GivenUp(s, u, id, uses)
    ensures Inv(ApplyPut(u, id, uses))
  {
    if Accepts(u.idle, u.closed, uses) {
      PutIn(s, u, id, uses);
    } else {
      PutOut(s, u, id, uses);
    }
  }

  lemma StepWarmPut(s: State, id: Id)
    requires Inv(s) && Enabled(s, WarmPut(id))
    ensures Inv(Apply(s, WarmPut(id)))
  {
    hide WellKept, Distinct, ApplyPut, SentBy, Segment;
    assert PlaceOk(s, id) && TransportOk(s, id) && OutOk(s, id);
    forall l | 0 <= l < |s.leases| && s.leases[l].id == id
      ensures OwnBytes(s.leases[l]) && !s.leases[l].holds
    {
      assert LeasePlaced(s, l);
    }
    StepPut(s, s.(warming := s.warming - {id}), id, 0);
  }

  lemma StepPutBack(s: State, l: nat)
    requires Inv(s) && Enabled(s, PutBack(l))
    ensures Inv(Apply(s, PutBack(l)))
  {
    hide WellKept, Distinct, ApplyPut, SentBy;
    var e := s.leases[l];
    assert LeasePlaced(s, l);
    assert PlaceOk(s, e.id) && TransportOk(s, e.id) && OutOk(s, e.id);
    var u := s.(leases := s.leases[l := e.(closing := Done, holds := false)]);
    SentSame(s.leases, u.leases, e.id);
    forall m | 0 <= m < |u.leases| && u.leases[m].id == e.id
      ensures OwnBytes(u.leases[m]) && !u.leases[m].holds && Ended(u.leases[m])
    {
      assert LeasePlaced(s, m);
    }
    StepPut(s, u, e.id, e.uses);
  }

  // ---- leases ----

  /** Data symbols and the zero mark never mix: what is read as data is the stream's own data. */
  lemma OwnData(got: Bytes, d: Bytes, rest: seq<Sym>, want: Bytes)
    requires Data(got) + (Data(d) + rest) <= Data(want) + [Zero]
    ensures got + d <= want && Data(got + d) + rest <= Data(want) + [Zero]
  {
    var all := Data(want) + [Zero];
    Assoc(Data(got), Data(d), rest);
    DataConcat(got, d);
    assert |got + d| <= |want| + 1;
    assert forall i :: 0 <= i < |got + d| ==> all[i] == B((got + d)[i]);
    assert all[|want|] == Zero;
    assert forall i :: 0 <= i < |want| ==> all[i] == B(want[i]);
    assert got + d == want[..|got + d|];
  }

  lemma OwnEnd(got: Bytes, rest: seq<Sym>, want: Bytes)
    requires Data(got) + ([Zero] + rest) <= Data(want) + [Zero]
    requires got <= want
    ensures got == want && rest == []
  {
    var all := Data(want) + [Zero];
    assert forall i :: 0 <= i < |want| ==> all[i] == B(want[i]);
    assert (Data(got) + ([Zero] + rest))[|got|] == Zero;
    assert |got| >= |want|;
  }

  lemma AnswerStarts(want: Bytes, input: seq<Sym>)
    requires input <= Answer(want)
    ensures input == [] ==> !ReplyOf(input).reply.Accepted?
    ensures input != [] ==> ReplyOf(input).reply.Accepted? && ReplyOf(input).rest.value <= Data(want) + [Zero]
  {
    if input != [] {
      assert input[0] == Answer(want)[0] == B(CMD_TUNNEL);
      assert input == [B(CMD_TUNNEL)] + input[1..];
      ReplyAccepted(input[1..]);
      assert input[1..] <= Answer(want)[1..] == Data(want) + [Zero];
    }
  }

  /** One read keeps a lease on its own stream. */
  lemma ReadOwn(e: Lease, k: Link, size: nat, out: ReadOutcome, after: Link)
    requires e.closing.Open? && !e.eof && !e.failed && OwnBytes(e) && LeaseInput(e, k)
    requires ReadStep(k, size, out, after)
    ensures match out
      case Received(d) => OwnBytes(e.(got := e.got + d)) && LeaseInput(e.(got := e.got + d), after)
      case EndOfStream => OwnBytes(e.(eof := true)) && LeaseInput(e.(eof := true), after)
      case ReadError => LeaseInput(e.(failed := true), after)
  {
    hide ReplyOf, Answer;
    if !k.reply {
      AnswerStarts(e.want, k.input);
    }
    if Answered(k) {
      assert Data([]) + DataInput(k) == DataInput(k);
      assert Data(e.got) + DataInput(k) <= Data(e.want) + [Zero];
      match out {
        case Received(d) => OwnData(e.got, d, after.input, e.want);
        case EndOfStream => OwnEnd(e.got, after.input, e.want);
        case ReadError =>
      }
    }
  }

  lemma SameInput(e: Lease, f: Lease, k: Link)
    requires f == e.(half := f.half, reuse := f.reuse, closing := f.closing)
    requires !e.closing.PuttingBack? && !f.closing.PuttingBack?
    ensures LeaseInput(e, k) == LeaseInput(f, k)
  {
  }

  lemma StepRead(s: State, l: nat, size: nat, out: ReadOutcome, after: Link)
    requires Inv(s) && Enabled(s, Read(l, size, out, after))
    ensures Inv(ApplyRead(s, l, out, after))
  {
    hide WellKept, Distinct, ReadStep, LeaseInput, OutOk;
    var e := s.leases[l];
    assert LeasePlaced(s, l);
    assert PlaceOk(s, e.id) && TransportOk(s, e.id) && OutOk(s, e.id);
    ReadOwn(e, s.trans[e.id].link, size, out, after);
    OutQuiet(s, ApplyRead(s, l, out, after), l);
    LocalLease(s, ApplyRead(s, l, out, after), l);
  }

  /** A lease that changes in nothing that is sent. */
  lemma OutQuiet(s: State, t: State, l: nat)
    requires l < |s.leases| && s.leases[l].id < |s.trans| == |t.trans| && OutOk(s, s.leases[l].id)
    requires |t.leases| == |s.leases| && t.leases == s.leases[l := t.leases[l]] && t.reuse == s.reuse
    requires var e, f := s.leases[l], t.leases[l];
      && f.id == e.id && f.req == e.req && f.wrote == e.wrote && Ended(f) == Ended(e) && f.holds == e.holds
      && t.trans[e.id].out == s.trans[e.id].out && t.trans[e.id].place == s.trans[e.id].place
    ensures OutOk(t, s.leases[l].id)
  {
    hide SentBy;
    OutSame(s, t, s.leases[l].id);
  }

  lemma StepBeginHalf(s: State, l: nat)
    requires Inv(s) && Enabled(s, BeginHalf(l))
    ensures Inv(Apply(s, BeginHalf(l)))
  {
    hide WellKept, Distinct, LeaseInput, OutOk;
    var id := s.leases[l].id;
    assert LeasePlaced(s, l);
    assert PlaceOk(s, id) && TransportOk(s, id) && OutOk(s, id);
    var t := Apply(s, BeginHalf(l));
    if s.leases[l].closing.PuttingBack? {
      assert !s.leases[l].holds;
    } else {
      SameInput(s.leases[l], t.leases[l], s.trans[id].link);
    }
    OutQuiet(s, t, l);
    LocalLease(s, t, l);
  }

  /** An action that only changes one lease, and its transport in nothing but what it carries. */
  lemma LocalLease(s: State, t: State, l: nat)
    requires Inv(s) && l < |s.leases| == |t.leases| && s.leases[l].id < |s.trans| == |t.trans|
    requires var id := s.leases[l].id;
      && t == s.(leases := s.leases[l := t.leases[l]], trans := s.trans[id := t.trans[id]])
      && t.leases[l].id == id && t.leases[l].holds == s.leases[l].holds && t.trans[id].place == s.trans[id].place
      && TransportOk(t, id) && OutOk(t, id)
    requires OwnBytes(t.leases[l])
    ensures Inv(t)
  {
    hide WellKept, Distinct, OutOk, TransportOk, OwnBytes;
    var id := s.leases[l].id;
    assert LeasePlaced(s, l) && PlaceOk(s, id);
    assert PlaceOk(t, id);
    forall m | 0 <= m < |t.leases| && t.leases[m].id == id
      ensures LeasePlaced(t, m)
    {
      assert LeasePlaced(s, m);
    }
    Local(s, t, {id});
  }

  lemma StepCallClose(s: State, l: nat)
    requires Inv(s) && Enabled(s, CallClose(l))
    ensures Inv(Apply(s, CallClose(l)))
  {
    hide WellKept, Distinct, LeaseInput, OutOk;
    var id := s.leases[l].id;
    assert LeasePlaced(s, l);
    assert PlaceOk(s, id) && TransportOk(s, id) && OutOk(s, id);
    var t := Apply(s, CallClose(l));
    SameInput(s.leases[l], t.leases[l], s.trans[id].link);
    OutQuiet(s, t, l);
    LocalLease(s, t, l);
  }

  /** A half-close that succeeds adds the zero chunk to the lease's part. */
  lemma OutHalf(s: State, l: nat, failed: bool)
    requires Inv(s) && Enabled(s, EndHalf(l, failed)) && s.leases[l].half.reusable
    ensures OutOk(ApplyEndHalf(s, l, failed), s.leases[l].id)
  {
    hide SentBy, WellKept, Distinct, LeaseInput;
    var e, t := s.leases[l], ApplyEndHalf(s, l, failed);
    var more := if failed then [] else [Zero];
    assert LeasePlaced(s, l) && OutOk(s, e.id);
    assert Data(e.req) + Data(e.wrote) + [] == Data(e.req) + Data(e.wrote);
    assert Segment(t.leases[l]) == Segment(e) + more;
    SentMore(s.leases, t.leases, l, more);
    Assoc(Greeting(s.reuse), SentBy(s.leases, e.id), more);
  }

  /** What a write gets out is added to the lease's part. */
  lemma OutWrite(s: State, l: nat, sent: Bytes, fails: bool)
    requires Inv(s) && Holds(s, l) && s.leases[l].half.NotCalled?
    ensures OutOk(ApplyWrite(s, l, sent, fails), s.leases[l].id)
  {
    hide SentBy, WellKept, Distinct, LeaseInput;
    var e, t := s.leases[l], ApplyWrite(s, l, sent, fails);
    assert LeasePlaced(s, l) && OutOk(s, e.id);
    DataConcat(e.wrote, sent);
    Assoc(Data(e.req), Data(e.wrote), Data(sent));
    assert Data(e.req) + Data(e.wrote) + Data(sent) + [] == Data(e.req) + Data(e.wrote) + [] + Data(sent);
    assert Segment(t.leases[l]) == Segment(e) + Data(sent);
    SentMore(s.leases, t.leases, l, Data(sent));
    Assoc(Greeting(s.reuse), SentBy(s.leases, e.id), Data(sent));
  }

  lemma StepWrite(s: State, l: nat, data: Bytes, n: nat, fails: bool)
    requires Inv(s) && Enabled(s, Write(l, data, n, fails))
    ensures Inv(ApplyWrite(s, l, data[..n], fails))
  {
    hide WellKept, Distinct, OutOk;
    var e := s.leases[l];
    assert LeasePlaced(s, l);
    assert PlaceOk(s, e.id) && TransportOk(s, e.id);
    OutWrite(s, l, data[..n], fails);
    LocalLease(s, ApplyWrite(s, l, data[..n], fails), l);
  }

  lemma EndReusable(s: State, l: nat, failed: bool)
    requires Inv(s) && Enabled(s, EndHalf(l, failed)) && s.leases[l].half.reusable
    ensures Inv(ApplyEndHalf(s, l, failed))
  {
    hide WellKept, Distinct, LeaseInput;
    var id := s.leases[l].id;
    assert LeasePlaced(s, l);
    assert PlaceOk(s, id) && TransportOk(s, id);
    var t := ApplyEndHalf(s, l, failed);
    SameInput(s.leases[l], t.leases[l], s.trans[id].link);
    OutHalf(s, l, failed);
    LocalLease(s, t, l);
  }

  lemma StepEndHalf(s: State, l: nat, failed: bool)
    requires Inv(s) && Enabled(s, EndHalf(l, failed))
    ensures Inv(ApplyEndHalf(s, l, failed))
  {
    hide WellKept, Distinct, LeaseInput;
    var id := s.leases[l].id;
    assert LeasePlaced(s, l);
    assert PlaceOk(s, id) && TransportOk(s, id);
    if s.leases[l].half.reusable {
      EndReusable(s, l, failed);
    } else {
      Local(s, ApplyEndHalf(s, l, failed), {id});
    }
  }

  lemma DecideQuiet(e: Lease, k: Link)
    requires e.closing.Waiting?
    ensures LeaseInput(e, k) && k.peerClosed ==> e.eof && k.input == []
    ensures LeaseInput(e.(closing := PuttingBack), QUIET)
  {
  }

  /** Close reaches the point of pooling only with our zero chunk out and the peer's in. */
  lemma DecidePool(s: State, l: nat)
    requires Inv(s) && Enabled(s, Decide(l, false))
    requires var e := s.leases[l]; e.holds && e.half == Finished(true, false) && s.trans[e.id].link.peerClosed
    ensures Inv(ApplyDecide(s, l, false))
  {
    hide WellKept, Distinct, LeaseInput;
    var id := s.leases[l].id;
    assert LeasePlaced(s, l);
    assert PlaceOk(s, id) && TransportOk(s, id);
    var t := ApplyDecide(s, l, false);
    DecideQuiet(s.leases[l], s.trans[id].link);
    assert t.trans[id].link == QUIET;
    assert PlaceOk(t, id);
    assert LeaseInput(t.leases[l], t.trans[id].link);
    assert t.leases[l].eof;
    assert LeaseOk(t.leases[l], t.trans[id]);
    assert TransportOk(t, id);
    OutQuiet(s, t, l);
    LocalLease(s, t, l);
  }

  lemma StepDecide(s: State, l: nat, deadlineFails: bool)
    requires Inv(s) && Enabled(s, Decide(l, deadlineFails))
    ensures Inv(ApplyDecide(s, l, deadlineFails))
  {
    hide Inv;
    var e := s.leases[l];
    if e.holds && e.half == Finished(true, false) && s.trans[e.id].link.peerClosed && !deadlineFails {
      DecidePool(s, l);
    } else if e.holds {
      LeaseDrops(s, l);
    } else {
      NothingHeld(s, l, e.(closing := Done));
    }
  }

  /** A lease gives its transport up to be closed. */
  lemma LeaseDrops(s: State, l: nat)
    requires Inv(s) && Holds(s, l)
    ensures var e := s.leases[l];
      Inv(s.(leases := s.leases[l := e.(closing := Done, holds := false)],
             dropping := s.dropping + {e.id}, trans := MoveOne(s.trans, e.id, Dropping)))
  {
    hide WellKept, Distinct, LeaseInput;
    var e := s.leases[l];
    var t := s.(leases := s.leases[l := e.(closing := Done, holds := false)],
                dropping := s.dropping + {e.id}, trans := MoveOne(s.trans, e.id, Dropping));
    assert LeasePlaced(s, l);
    assert PlaceOk(s, e.id) && TransportOk(s, e.id);
    Local(s, t, {e.id});
  }

  /** A lease that no longer holds a transport can change freely. */
  lemma NothingHeld(s: State, l: nat, f: Lease)
    requires Inv(s) && l < |s.leases| && !s.leases[l].holds
    requires f == s.leases[l].(closing := f.closing)
    ensures Inv(s.(leases := s.leases[l := f]))
  {
    hide WellKept, Distinct;
    var id, t := s.leases[l].id, s.(leases := s.leases[l := f]);
    assert LeasePlaced(s, l);
    assert PlaceOk(s, id) && TransportOk(s, id);
    OutQuiet(s, t, l);
    LocalLease(s, t, l);
  }

  // ---- the idle list ----

  /** Idle transports that leave the list for the dead or the dropping. */
  lemma IdleLeaves(s: State, t: State, j: Id)
    requires Inv(s) && j < |s.trans| == |t.trans| && IsIdle(s, j)
    requires t.warming == s.warming && t.unchecked == s.unchecked && t.leases == s.leases
    requires !IsIdle(t, j) && j !in t.inHand && t.trans[j].takes == s.trans[j].takes
    requires (t.trans[j].place == Dead && j in t.dead && (j in t.dropping ==> j in s.dropping))
          || (t.trans[j].place == Dropping && j in t.dropping && (j in t.dead ==> j in s.dead))
    ensures PlaceOk(t, j) && TransportOk(t, j) && OutOk(t, j)
  {
    assert PlaceOk(s, j) && TransportOk(s, j);
  }

  lemma CloseDrops(s: State, j: Id)
    requires Inv(s) && j in IdSet(s.idle)
    ensures var t := Apply(s, ClosePool);
      IsIdle(s, j) && j < |s.trans| == |t.trans| && PlaceOk(t, j) && TransportOk(t, j) && OutOk(t, j)
  {
    hide WellKept, Distinct, TransportOk, OutOk, LeasePlaced;
    assert IsIdle(s, j);
    assert PlaceOk(s, j);
    IdleLeaves(s, Apply(s, ClosePool), j);
  }

  lemma StepClosePool(s: State)
    requires Inv(s)
    ensures Inv(Apply(s, ClosePool))
  {
    hide PlaceOk, TransportOk, OutOk, LeasePlaced;
    var t, ids := Apply(s, ClosePool), IdSet(s.idle);
    forall j | j in ids
      ensures PlaceOk(t, j) && TransportOk(t, j) && OutOk(t, j) && IsIdle(s, j)
    {
      CloseDrops(s, j);
    }
    NotLeased(s, ids);
    StillPlaced(s, t, ids);
    Local(s, t, ids);
  }

  /** Leases that hold nothing stay placed wherever their transports go. */
  lemma StillPlaced(s: State, t: State, ids: set<Id>)
    requires Inv(s) && t.leases == s.leases && |t.trans| == |s.trans|
    requires forall l :: 0 <= l < |s.leases| && s.leases[l].id in ids ==> !s.leases[l].holds
    ensures forall l :: 0 <= l < |t.leases| && t.leases[l].id in ids ==> LeasePlaced(t, l)
  {
    hide PlaceOk, TransportOk, OutOk, WellKept, Distinct, OwnBytes;
    forall l | 0 <= l < |t.leases| && t.leases[l].id in ids
      ensures LeasePlaced(t, l)
    {
      assert LeasePlaced(s, l);
    }
  }

  lemma NotLeased(s: State, ids: set<Id>)
    requires Inv(s) && forall j :: j in ids ==> IsIdle(s, j)
    ensures forall l :: 0 <= l < |s.leases| && s.leases[l].id in ids ==> !s.leases[l].holds
  {
    forall l | 0 <= l < |s.leases| && s.leases[l].id in ids
      ensures !s.leases[l].holds
    {
      assert LeasePlaced(s, l) && PlaceOk(s, s.leases[l].id);
    }
  }

  /** A list of distinct transports cut at `n`. */
  lemma CutAt(idle: seq<Idle>, n: nat)
    requires Distinct(idle) && n < |idle|
    ensures forall e :: e in idle <==> e in idle[..n] || e == idle[n] || e in idle[n + 1..]
    ensures forall e, f :: e in idle[..n] && f in idle[n + 1..] ==> e.id != f.id
    ensures forall e :: e in idle[..n] || e in idle[n + 1..] ==> e.id != idle[n].id
    ensures Distinct(idle[n + 1..])
  {
    assert idle == idle[..n] + [idle[n]] + idle[n + 1..];
  }

  /** Which entries a pop keeps, kills and takes. */
  lemma PopMembers(idle: seq<Idle>, now: int)
    requires Distinct(idle)
    ensures var p := PopOf(idle, now);
      && (forall e :: e in idle <==> e in p.expired || p.taken == Some(e) || e in p.rest)
      && (forall e, f :: e in p.expired && f in p.rest ==> e.id != f.id)
      && (forall e :: e in p.expired && p.taken.Some? ==> e.id != p.taken.value.id)
      && (forall e :: e in p.rest && p.taken.Some? ==> e.id != p.taken.value.id)
      && Distinct(p.rest)
  {
    hide PopOf;
    PopSplits(idle, now);
    var n := |PopOf(idle, now).expired|;
    if n < |idle| {
      hide Distinct;
      CutAt(idle, n);
    } else {
      assert idle[..n] == idle;
    }
  }

  lemma ExpiredOnce(idle: seq<Idle>, now: int, j: Id)
    requires Distinct(idle) && j in IdSet(PopOf(idle, now).expired)
    ensures exists e :: e in idle && e.id == j
    ensures var p := PopOf(idle, now);
      (p.taken.Some? ==> p.taken.value.id != j) && forall e :: e in p.rest ==> e.id != j
  {
    hide PopOf, Distinct;
    PopMembers(idle, now);
    var e :| e in PopOf(idle, now).expired && e.id == j;
    assert e in idle;
  }

  /** Where a pop leaves the transports it closes. */
  lemma PopCloses(s: State, j: Id)
    requires Distinct(s.idle) && j in IdSet(PopOf(s.idle, s.now).expired) && j < |s.trans|
    ensures !IsIdle(ApplyPop(s), j) && (j in ApplyPop(s).inHand ==> j in s.inHand)
    ensures j < |ApplyPop(s).trans| && ApplyPop(s).trans[j] == s.trans[j].(place := Dead)
    ensures j in ApplyPop(s).dead && (j in ApplyPop(s).dropping ==> j in s.dropping)
  {
    hide PopOf, IdSet, Distinct;
    ExpiredOnce(s.idle, s.now, j);
  }

  lemma IdleNotInHand(s: State, j: Id)
    requires Inv(s) && IsIdle(s, j)
    ensures j < |s.trans| && j !in s.inHand
  {
    assert PlaceOk(s, j);
  }

  lemma PopGone(s: State, j: Id)
    requires Inv(s) && j in IdSet(PopOf(s.idle, s.now).expired)
    ensures var t := ApplyPop(s);
      j < |s.trans| == |t.trans| && PlaceOk(t, j) && TransportOk(t, j) && OutOk(t, j)
  {
    hide WellKept, PopOf, PlaceOk, TransportOk, OutOk, LeasePlaced, Distinct, IdSet, ApplyPop;
    ExpiredOnce(s.idle, s.now, j);
    IdleNotInHand(s, j);
    PopCloses(s, j);
    PopSize(s);
    IdleLeaves(s, ApplyPop(s), j);
  }

  /** Where a pop leaves the transport it takes. */
  lemma PopHands(s: State)
    requires Distinct(s.idle) && PopOf(s.idle, s.now).taken.Some? && PopOf(s.idle, s.now).taken.value.id < |s.trans|
    ensures var e, t := PopOf(s.idle, s.now).taken.value, ApplyPop(s); var j := e.id;
      && !IsIdle(t, j) && j in t.inHand && t.inHand[j] == e.uses + 1 && |t.trans| == |s.trans|
      && t.trans[j] == s.trans[j].(place := InHand, takes := s.trans[j].takes + 1)
      && (j in t.dead ==> j in s.dead) && t.dropping == s.dropping && t.leases == s.leases && t.reuse == s.reuse
      && t.warming == s.warming && t.unchecked == s.unchecked && e in s.idle
  {
    hide PopOf, Distinct;
    PopMembers(s.idle, s.now);
    assert PopOf(s.idle, s.now).taken.value.id !in IdSet(PopOf(s.idle, s.now).expired);
  }

  lemma PopTaken(s: State)
    requires Inv(s) && PopOf(s.idle, s.now).taken.Some?
    ensures var j, t := PopOf(s.idle, s.now).taken.value.id, ApplyPop(s);
      j < |s.trans| == |t.trans| && PlaceOk(t, j) && TransportOk(t, j) && OutOk(t, j)
  {
    hide PopOf, ApplyPop, OutOk, LeasePlaced, Distinct, WellKept;
    TakenIdle(s);
    PopKeeps(s.idle, s.now);
    var t, e := ApplyPop(s), PopOf(s.idle, s.now).taken.value;
    PopHands(s);
    assert IsIdle(s, e.id);
    assert PlaceOk(s, e.id) && TransportOk(s, e.id) && OutOk(s, e.id);
    OutSame(s, t, e.id);
  }

  lemma TakenIdle(s: State)
    requires Inv(s) && PopOf(s.idle, s.now).taken.Some?
    ensures PopOf(s.idle, s.now).taken.value in s.idle && PopOf(s.idle, s.now).taken.value.id < |s.trans|
  {
    hide PopOf, PlaceOk, TransportOk, OutOk, LeasePlaced, WellKept;
    PopMembers(s.idle, s.now);
  }

  function PopIds(s: State): set<Id> {
    var p := PopOf(s.idle, s.now);
    IdSet(p.expired) + (if p.taken.Some? then {p.taken.value.id} else {})
  }

  /** The entries a pop removes from the list are those of the transports it moves. */
  lemma PopEntries(s: State)
    requires Distinct(s.idle) && forall e :: e in s.idle ==> e.id < |s.trans|
    ensures forall e :: e in PopOf(s.idle, s.now).rest ==> e in s.idle
    ensures forall e :: e in s.idle && e !in PopOf(s.idle, s.now).rest ==> e.id in PopIds(s)
    ensures forall j :: j in PopIds(s) ==> j < |s.trans|
  {
    hide PopOf, IdSet, Distinct;
    PopMembers(s.idle, s.now);
    ExpiredIds(PopOf(s.idle, s.now).expired);
  }

  lemma PopCollections(s: State)
    requires forall e :: e in s.idle ==> e.id < |s.trans|
    requires forall j :: j in PopIds(s) ==> j < |s.trans|
    ensures var t, ids := ApplyPop(s), PopIds(s);
      && t.inHand - ids == s.inHand - ids && t.dead - ids == s.dead - ids && t.dropping == s.dropping
      && (forall j :: 0 <= j < |s.trans| && j !in ids ==> t.trans[j] == s.trans[j])
      && t.idle == PopOf(s.idle, s.now).rest && t.now == s.now && t.closed == s.closed
  {
    hide PopOf, IdSet;
    var p := PopOf(s.idle, s.now);
    WithoutAdded(s.dead, IdSet(p.expired), PopIds(s));
    if p.taken.Some? {
      InHandElsewhere(s.inHand, p.taken.value.id, p.taken.value.uses + 1, PopIds(s));
    }
  }

  lemma PopAgrees(s: State)
    requires Inv(s)
    ensures Agrees(s, ApplyPop(s), PopIds(s))
    ensures ApplyPop(s).idle == PopOf(s.idle, s.now).rest && ApplyPop(s).now == s.now
    ensures ApplyPop(s).closed ==> ApplyPop(s).idle == []
  {
    hide PlaceOk, TransportOk, OutOk, LeasePlaced, WellKept, PopOf, IdSet, ApplyPop, Distinct, PopIds;
    PopEntries(s);
    PopCollections(s);
    PopSize(s);
    PopClosed(s);
  }

  lemma StepPop(s: State)
    requires Inv(s)
    ensures Inv(ApplyPop(s))
  {
    hide PlaceOk, TransportOk, OutOk, LeasePlaced, PopOf, WellKept, ApplyPop, Agrees;
    var t, p, ids := ApplyPop(s), PopOf(s.idle, s.now), PopIds(s);
    PopKeeps(s.idle, s.now);
    PopMembers(s.idle, s.now);
    forall j | j in ids
      ensures j < |t.trans| && PlaceOk(t, j) && TransportOk(t, j) && OutOk(t, j) && IsIdle(s, j)
    {
      if j in IdSet(p.expired) {
        PopGone(s, j);
      } else {
        PopTaken(s);
      }
    }
    NotLeased(s, ids);
    PopSize(s);
    StillPlaced(s, t, ids);
    PopAgrees(s);
    Local(s, t, ids);
  }

  lemma InHandElsewhere(m: map<Id, nat>, id: Id, uses: nat, ids: set<Id>)
    requires id in ids
    ensures m[id := uses] - ids == m - ids
  {
  }

  lemma PopClosed(s: State)
    requires Inv(s)
    ensures s.closed ==> PopOf(s.idle, s.now) == Popped([], None, [])
  {
  }

  lemma ExpiredIds(es: seq<Idle>)
    ensures forall e :: e in es ==> e.id in IdSet(es)
    ensures forall j :: j in IdSet(es) ==> exists e :: e in es && e.id == j
  {
  }

  lemma WithoutAdded(d: set<Id>, gone: set<Id>, ids: set<Id>)
    requires gone <= ids
    ensures (d + gone) - ids == d - ids
  {
  }

  lemma PopSize(s: State)
    ensures |ApplyPop(s).trans| == |s.trans| && ApplyPop(s).leases == s.leases && ApplyPop(s).reuse == s.reuse
    ensures ApplyPop(s).warming == s.warming && ApplyPop(s).unchecked == s.unchecked
  {
    hide PopOf, IdSet;
  }

  // ---- every run ----

  lemma Step(s: State, a: Action)
    requires Inv(s) && Enabled(s, a)
    ensures Inv(Apply(s, a))
  {
    hide Inv;
    match a
    case Tick(d) => StepTick(s, d);
    case WarmMake => StepMake(s, a);
    case WarmPut(id) => StepWarmPut(s, id);
    case Pop => StepPop(s);
    case Make => StepMake(s, a);
    case Recheck(id) => StepRecheck(s, id);
    case GiveUp(id, part) => StepGiveUp(s, id, part);
    case Connect(id, req, want, arrives) => StepConnect(s, id, req, want, arrives);
    case Write(l, data, n, fails) => StepWrite(s, l, data, n, fails);
    case Read(l, size, out, after) => StepRead(s, l, size, out, after);
    case BeginHalf(l) => StepBeginHalf(s, l);
    case EndHalf(l, failed) => StepEndHalf(s, l, failed);
    case CallClose(l) => StepCallClose(s, l);
    case Decide(l, deadlineFails) => StepDecide(s, l, deadlineFails);
    case PutBack(l) => StepPutBack(s, l);
    case ClosePool => StepClosePool(s);
    case Drop(id) => StepDrop(s, id);
  }

  /** `t` is reached from `s` by these actions. */
  predicate Runs(s: State, acts: seq<Action>, t: State)
    decreases |acts|
  {
    if acts == [] then s == t else Enabled(s, acts[0]) && Runs(Apply(s, acts[0]), acts[1..], t)
  }

  lemma {:induction false} RunKeepsInv(s: State, acts: seq<Action>, t: State)
    requires Inv(s) && Runs(s, acts, t)
    ensures Inv(t)
    decreases |acts|
  {
    hide Inv, Apply, Enabled;
    if acts != [] {
      Step(s, acts[0]);
      RunKeepsInv(Apply(s, acts[0]), acts[1..], t);
    }
  }

  function One(b: bool): nat {
    if b then 1 else 0
  }

  lemma Reached(reuse: bool, acts: seq<Action>, t: State)
    requires Runs(Start(reuse), acts, t)
    ensures Inv(t)
  {
    InvStart(reuse);
    RunKeepsInv(Start(reuse), acts, t);
  }

  /** Where in the idle list a transport stands, and which leases hold it. */
  function IdleAt(t: State, id: Id): set<nat> {
    set i | 0 <= i < |t.idle| && t.idle[i].id == id
  }

  function HeldBy(t: State, id: Id): set<nat> {
    set l | 0 <= l < |t.leases| && t.leases[l].holds && t.leases[l].id == id
  }

  lemma IdleOnce(t: State, id: Id)
    requires id < |t.trans| && PlaceOk(t, id) && Distinct(t.idle)
    ensures |IdleAt(t, id)| == One(t.trans[id].place.InIdle?)
  {
    if t.trans[id].place.InIdle? {
      var e :| e in t.idle && e.id == id;
      var i :| 0 <= i < |t.idle| && t.idle[i] == e;
      assert IdleAt(t, id) == {i};
    } else {
      assert forall i :: 0 <= i < |t.idle| ==> t.idle[i] in t.idle;
      assert IdleAt(t, id) == {};
    }
  }

  lemma HeldOnce(t: State, id: Id)
    requires id < |t.trans| && PlaceOk(t, id)
    requires forall l :: 0 <= l < |t.leases| ==> LeasePlaced(t, l)
    ensures |HeldBy(t, id)| == One(t.trans[id].place.Leased?)
  {
    hide OwnBytes;
    var p := t.trans[id].place;
    assert forall l :: l in HeldBy(t, id) ==> LeasePlaced(t, l);
    if p.Leased? {
      assert HeldBy(t, id) == {p.l};
    } else {
      assert HeldBy(t, id) == {};
    }
  }

  /** In every interleaving, each transport ever made is in exactly one place: held by background warming,
      by a dial that has yet to look at the pool again, by a dial, once in the idle list, by one lease, by
      whoever is about to close it, or closed. */
  lemma ExactlyOnePlace(reuse: bool, acts: seq<Action>, t: State, id: Id)
    requires Runs(Start(reuse), acts, t) && id < |t.trans|
    ensures One(id in t.warming) + One(id in t.unchecked) + One(id in t.inHand)
          + |IdleAt(t, id)| + |HeldBy(t, id)| + One(id in t.dropping) + One(id in t.dead) == 1
  {
    hide Runs;
    Reached(reuse, acts, t);
    hide IdleAt, HeldBy, WellKept, TransportOk, OutOk, LeasePlaced, Distinct;
    assert PlaceOk(t, id);
    IdleOnce(t, id);
    HeldOnce(t, id);
  }

  /** A holder only ever reads its own stream, from its start and in order; when it has seen the end of the
      stream it has read all of it. However often the transport was used before makes no difference. */
  lemma EveryLeaseReadsItsOwnStream(reuse: bool, acts: seq<Action>, t: State, l: nat)
    requires Runs(Start(reuse), acts, t) && l < |t.leases|
    ensures t.leases[l].got <= t.leases[l].want
    ensures t.leases[l].eof ==> t.leases[l].got == t.leases[l].want
  {
    Reached(reuse, acts, t);
    assert LeasePlaced(t, l);
  }

  /** On every transport that is not being closed we have sent a PING if it was warmed, and then, lease by lease and
      in order, the CONNECT, what the holder wrote and one zero chunk; only the present lease may lack its own, and no
      lease that has ended had a failed write. */
  lemma EveryStreamSentWhole(reuse: bool, acts: seq<Action>, t: State, id: Id)
    requires Runs(Start(reuse), acts, t) && id < |t.trans|
    requires !t.trans[id].place.Dropping? && !t.trans[id].place.Dead?
    ensures t.trans[id].out == Greeting(t.reuse) + SentBy(t.leases, id)
    ensures forall l :: 0 <= l < |t.leases| && t.leases[l].id == id && t.trans[id].place != Leased(l) ==>
      Ended(t.leases[l]) && !t.leases[l].broken
    ensures t.trans[id].place.Leased? ==> LastOf(t.leases, t.trans[id].place.l, id)
  {
    hide Runs;
    Reached(reuse, acts, t);
    assert OutOk(t, id);
    forall l | 0 <= l < |t.leases| && t.leases[l].id == id && t.trans[id].place != Leased(l)
      ensures Ended(t.leases[l]) && !t.leases[l].broken
    {
      assert LeasePlaced(t, l);
    }
  }

  /** At most ten idle transports, in order of idle time, each with a use left, each between streams: no byte
      unread, no flag set. No transport is taken more than twice. */
  lemma IdleIsClean(reuse: bool, acts: seq<Action>, t: State)
    requires Runs(Start(reuse), acts, t)
    ensures WellKept(t.idle, t.now) && |t.idle| <= 10
    ensures forall i, j :: 0 <= i < j < |t.idle| ==> t.idle[i].used <= t.idle[j].used <= t.now
    ensures forall e :: e in t.idle ==> e.uses < 2
    ensures forall e :: e in t.idle ==> e.id < |t.trans| && Clean(t.trans[e.id]) && e.uses == t.trans[e.id].takes
    ensures forall id :: 0 <= id < |t.trans| ==> t.trans[id].takes <= 2
  {
    Reached(reuse, acts, t);
    forall e | e in t.idle
      ensures e.id < |t.trans| && Clean(t.trans[e.id]) && e.uses == t.trans[e.id].takes
    {
      assert IsIdle(t, e.id) && PlaceOk(t, e.id) && TransportOk(t, e.id);
    }
    forall id | 0 <= id < |t.trans|
      ensures t.trans[id].takes <= 2
    {
      assert TransportOk(t, id);
    }
  }

  /** A lease gives its transport back to the idle list only when its zero chunk went out without error and
      the peer's end of stream was read; the reply flags are then clear and nothing is left to read. */
  lemma PooledOnlyAfterBothZeros(reuse: bool, acts: seq<Action>, t: State, l: nat)
    requires Runs(Start(reuse), acts, t) && Enabled(t, PutBack(l))
    ensures Ended(t.leases[l]) && !t.leases[l].broken && t.leases[l].eof
    ensures t.leases[l].got == t.leases[l].want && Clean(t.trans[t.leases[l].id])
    ensures t.trans[t.leases[l].id].out == Greeting(t.reuse) + SentBy(t.leases, t.leases[l].id)
  {
    hide Runs, SentBy;
    Reached(reuse, acts, t);
    var id := t.leases[l].id;
    assert LeasePlaced(t, l) && PlaceOk(t, id) && TransportOk(t, id) && OutOk(t, id);
  }

  lemma ClosedOnce(s: State, a: Action)
    requires Enabled(s, a) && s.closed
    ensures Apply(s, a).closed
  {
  }

  /** Once the pool is closed it stays closed, and nothing is idle in it ever again. */
  lemma {:induction false} ClosedStaysEmpty(s: State, acts: seq<Action>, t: State)
    requires Inv(s) && s.closed && Runs(s, acts, t)
    ensures t.closed && t.idle == []
    decreases |acts|
  {
    hide Apply, Enabled;
    if acts != [] {
      ClosedOnce(s, acts[0]);
      Step(s, acts[0]);
      ClosedStaysEmpty(Apply(s, acts[0]), acts[1..], t);
    }
  }

  lemma {:induction false} RunMore(s: State, acts: seq<Action>, t: State, a: Action)
    requires Runs(s, acts, t) && Enabled(t, a)
    ensures Runs(s, acts + [a], Apply(t, a))
    decreases |acts|
  {
    hide Apply, Enabled;
    if acts == [] {
      assert [] + [a] == [a] && [a][1..] == [];
      assert Runs(Apply(t, a), [], Apply(t, a));
    } else {
      assert (acts + [a])[1..] == acts[1..] + [a] && (acts + [a])[0] == acts[0];
      RunMore(Apply(s, acts[0]), acts[1..], t, a);
    }
  }

  /** The dial of a new transport, and everything up to the end of the peer's data. */
  lemma FirstLease(req: Bytes, want: Bytes) returns (acts: seq<Action>, t: State)
    requires want != []
    ensures Runs(Start(true), acts, t) && !t.closed && t.now == 0 && t.reuse && t.idle == []
    ensures |t.leases| == 1 && |t.trans| == 1
    ensures t.leases[0] ==
      Lease(0, 1, true, Reusable, NotCalled, Open, want, want, true, false, req, [], false)
    ensures t.trans[0] ==
      Transport(Link(true, true, []), Data([1, 0, 0]) + Data(req), 1, Leased(0))
  {
    hide Runs, Data;
    var s := Start(true);
    assert Runs(s, [], s) by { NoActions(s); }
    RunMore(s, [], s, Make);
    var s1 := Apply(s, Make);
    RunMore(s, [] + [Make], s1, Recheck(0));
    var s2 := Apply(s1, Recheck(0));
    var connect := Connect(0, req, want, Answer(want));
    RunMore(s, [] + [Make] + [Recheck(0)], s2, connect);
    var s3 := Apply(s2, connect);
    assert [] + Answer(want) == Answer(want);
    ReplyAccepted(Data(want) + [Zero]);
    var read := Read(0, |want|, Received(want), Link(true, false, [Zero]));
    RunMore(s, [] + [Make] + [Recheck(0)] + [connect], s3, read);
    var s4 := Apply(s3, read);
    assert [] + want == want && [Zero] + [] == [Zero];
    var end := Read(0, 1, EndOfStream, Link(true, true, []));
    RunMore(s, [] + [Make] + [Recheck(0)] + [connect] + [read], s4, end);
    acts, t := [] + [Make] + [Recheck(0)] + [connect] + [read] + [end], Apply(s4, end);
  }

  lemma NoActions(s: State)
    ensures Runs(s, [], s)
  {
  }

  /** Closed after its stream has ended both ways, the lease puts the transport back. */
  lemma FirstReturn(req: Bytes, want: Bytes) returns (acts: seq<Action>, t: State)
    requires want != []
    ensures Runs(Start(true), acts, t) && !t.closed && t.now == 0 && t.reuse && t.idle == [Idle(0, 0, 1)]
    ensures |t.leases| == 1 && t.leases[0] ==
      Lease(0, 1, false, Spent, Finished(true, false), Done, want, want, true, false, req, [], false)
    ensures t.trans == [Transport(QUIET, Data([1, 0, 0]) + Data(req) + [Zero], 1, InIdle)]
  {
    hide Runs, Data;
    var s := Start(true);
    acts, t := FirstLease(req, want);
    RunMore(s, acts, t, BeginHalf(0));
    acts, t := acts + [BeginHalf(0)], Apply(t, BeginHalf(0));
    RunMore(s, acts, t, EndHalf(0, false));
    acts, t := acts + [EndHalf(0, false)], Apply(t, EndHalf(0, false));
    RunMore(s, acts, t, CallClose(0));
    acts, t := acts + [CallClose(0)], Apply(t, CallClose(0));
    RunMore(s, acts, t, Decide(0, false));
    acts, t := acts + [Decide(0, false)], Apply(t, Decide(0, false));
    RunMore(s, acts, t, PutBack(0));
    acts, t := acts + [PutBack(0)], Apply(t, PutBack(0));
  }

  /** A transport can be used by two leases, one after the other: both streams are on it, whole, and each lease has
      read its own answer. The bounds above are met. */
  lemma ReuseHappens(req: Bytes, want: Bytes, req2: Bytes) returns (acts: seq<Action>, t: State)
    requires want != []
    ensures Runs(Start(true), acts, t) && |t.trans| == 1 && |t.leases| == 2
    ensures t.leases[0].id == t.leases[1].id == 0 && t.trans[0].takes == 2
    ensures t.leases[0].got == want && t.leases[0].closing.Done? && t.leases[1].holds
    ensures t.trans[0].out == Data([1, 0, 0]) + Data(req) + [Zero] + Data(req2)
  {
    hide Runs, Data;
    var s := Start(true);
    acts, t := FirstReturn(req, want);
    RunMore(s, acts, t, Action.Pop);
    PopNow(t);
    acts, t := acts + [Action.Pop], Apply(t, Action.Pop);
    RunMore(s, acts, t, Connect(0, req2, [], []));
    acts, t := acts + [Connect(0, req2, [], [])], Apply(t, Connect(0, req2, [], []));
  }

  lemma PopNow(t: State)
    requires t.idle == [Idle(0, 0, 1)] && t.now == 0
    ensures PopOf(t.idle, t.now) == Popped([], Some(Idle(0, 0, 1)), [])
  {
    assert t.idle[1..] == [];
  }
}
