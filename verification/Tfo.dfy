/** The delayed-dial connection: TCP is dialled by the first Write or Read, so that early data can ride on the
    SYN. Atomic sections first, on values and as a locked object; then every interleaving of callers. */
module Tfo {
  import opened Bytes

  type Time = int

  /** A dialled TCP connection: whether it is open, its deadlines, the bytes delivered on it. */
  datatype Tcp = Tcp(open: bool, rd: Time, wd: Time, sent: Bytes)

  /** What the mutex guards. `tcp` is the connection dialled, `conn` says that the object has taken it; a side is
      stale when the last attempt to set its deadline on the connection failed. */
  datatype Core = Core(conn: bool, err: bool, closed: bool, rd: Time, wd: Time, tcp: Option<Tcp>,
                       rStale: bool, wStale: bool)

  const NEW_CORE := Core(false, false, false, 0, 0, None, false, false)

  function Shut(t: Option<Tcp>): Option<Tcp> {
    if t.None? then None else Some(t.value.(open := false))
  }

  /** publish: `rFails` and `wFails` are the outcomes of setting the deadlines on the new connection. */
  function PublishOf(c: Core, rFails: bool, wFails: bool): Core {
    if c.closed then c.(tcp := Shut(c.tcp), err := true)
    else if c.tcp.None? then c.(conn := false, err := true)
    else if rFails then c.(tcp := Shut(c.tcp), err := true)
    else if wFails then c.(tcp := Shut(Some(c.tcp.value.(rd := c.rd))), err := true)
    else c.(tcp := Some(c.tcp.value.(rd := c.rd, wd := c.wd)), conn := true, err := false)
  }

  function CloseOf(c: Core): Core {
    if c.closed then c
    else c.(closed := true, tcp := if c.conn then Shut(c.tcp) else c.tcp)
  }

  function SetReadOf(c: Core, t: Time, fails: bool): Core {
    var d := c.(rd := t);
    if !c.conn || c.tcp.None? then d
    else if fails then d.(rStale := true)
    else d.(tcp := Some(c.tcp.value.(rd := t)), rStale := false)
  }

  function SetWriteOf(c: Core, t: Time, fails: bool): Core {
    var d := c.(wd := t);
    if !c.conn || c.tcp.None? then d
    else if fails then d.(wStale := true)
    else d.(tcp := Some(c.tcp.value.(wd := t)), wStale := false)
  }

  /** SetDeadline: when the read side fails the write side is not tried. */
  function SetBothOf(c: Core, t: Time, rFails: bool, wFails: bool): Core {
    var d := SetReadOf(c, t, rFails);
    if c.conn && c.tcp.Some? && rFails then d.(wd := t, wStale := true) else SetWriteOf(d, t, wFails)
  }

  /** The delayed-dial object. `tcp` is the connection dialled; `conn` says that it was taken. */
  class TFOConn {
    var dialled: bool
    var conn: bool
    var err: bool
    var closed: bool
    var rdeadline: Time
    var wdeadline: Time
    var tcp: Option<Tcp>
    ghost var dials: nat
    ghost var rStale: bool
    ghost var wStale: bool

    constructor ()
      ensures Valid() && View() == NEW_CORE && !dialled && dials == 0
    {
      dialled, conn, err, closed, rdeadline, wdeadline, tcp := false, false, false, false, 0, 0, None;
      dials, rStale, wStale := 0, false, false;
    }

    /** The part the runs below are about. */
    ghost function View(): Core
      reads this
    {
      Core(conn, err, closed, rdeadline, wdeadline, tcp, rStale, wStale)
    }

    /** Between calls: dialled at most once; the only connection that may be open is the one taken, and it is open
        until Close; it carries the deadlines last set, except on a stale side. */
    ghost predicate Valid()
      reads this
    {
      && dials == (if dialled then 1 else 0)
      && (if dialled then err == !conn else !conn && !err && tcp == None)
      && (conn ==> tcp.Some?)
      && (tcp.Some? ==> (tcp.value.open <==> conn && !closed))
      && (conn ==> (rStale || tcp.value.rd == rdeadline) && (wStale || tcp.value.wd == wdeadline))
      && (!conn ==> !rStale && !wStale)
    }

    /** The bytes delivered on the connection taken. */
    ghost function Delivered(): Bytes
      reads this
    {
      if conn && tcp.Some? then tcp.value.sent else []
    }

    /** The outcome of the dial: a connection is left open only if it is taken, with both deadlines set; it is
        taken exactly when nobody has closed the object and both deadlines can be set. */
    method Publish(c: Option<Tcp>, rFails: bool, wFails: bool)
      requires Valid() && !dialled && (c.Some? ==> c.value.open)
      modifies this
      ensures Valid() && dialled && tcp.Some? == c.Some? && closed == old(closed)
      ensures conn <==> c.Some? && !closed && !rFails && !wFails
      ensures tcp.Some? && tcp.value.open ==> conn && tcp.value.rd == rdeadline && tcp.value.wd == wdeadline
      ensures rdeadline == old(rdeadline) && wdeadline == old(wdeadline)
      ensures conn ==> tcp.value.sent == c.value.sent
      ensures View() == PublishOf(old(View()).(tcp := c), rFails, wFails)
    {
      dialled, dials, tcp := true, dials + 1, c;
      if closed {
        if tcp.Some? {
          tcp := Shut(tcp);
        }
        err := true;
        return;
      }
      if tcp.Some? {
        if rFails {
          tcp, err := Shut(tcp), true;
          return;
        }
        tcp := Some(tcp.value.(rd := rdeadline));
        if wFails {
          tcp, err := Shut(tcp), true;
          return;
        }
        tcp := Some(tcp.value.(wd := wdeadline));
      }
      conn, err := tcp.Some?, tcp.None?;
    }

    /** Afterwards no connection is open, whenever it was dialled, and nothing else has changed. */
    method Close()
      requires Valid()
      modifies this
      ensures Valid() && closed && !(tcp.Some? && tcp.value.open)
      ensures dialled == old(dialled) && conn == old(conn) && err == old(err) && Delivered() == old(Delivered())
      ensures rdeadline == old(rdeadline) && wdeadline == old(wdeadline)
      ensures View() == CloseOf(old(View()))
    {
      if closed {
        return;
      }
      closed := true;
      if conn {
        tcp := Shut(tcp);
      }
    }

    /** Bytes are delivered exactly as reported, after all those before them; a success is the whole of `b`. `dial`
        and the deadline outcomes matter to the first call only, `take` to the others. */
    method Write(b: Bytes, dial: bool, rFails: bool, wFails: bool, take: nat) returns (n: nat, ok: bool)
      requires Valid()
      modifies this
      ensures Valid() && n <= |b| && (ok ==> n == |b|)
      ensures old(closed) ==> n == 0 && !ok && dialled == old(dialled)
      ensures Delivered() == old(Delivered()) + b[..n]
      ensures !conn ==> n == 0 && !ok
      ensures !old(closed) ==> dialled && (ok <==>
        if old(dialled) then conn && take >= |b| else dial && !rFails && !wFails)
    {
      if closed {
        return 0, false;
      }
      var first := false;
      if !dialled {
        first := true;
        Publish(if dial then Some(Tcp(true, 0, 0, b)) else None, rFails, wFails);
      }
      if err {
        return 0, false;
      }
      if first {
        assert b[..|b|] == b;
        return |b|, true;
      }
      // The connection is there: the check for a missing one never fires.
      assert conn;
      n := Min(take, |b|);
      tcp := Some(tcp.value.(sent := tcp.value.sent + b[..n]));
      ok := n == |b|;
    }

    /** Whether a Read gets to the connection: it dials like a Write without data, and delivers nothing. */
    method Read(dial: bool, rFails: bool, wFails: bool) returns (reaches: bool)
      requires Valid()
      modifies this
      ensures Valid() && dialled && Delivered() == old(Delivered())
      ensures reaches <==> conn && !closed
      ensures !old(dialled) ==> (conn <==> dial && !closed && !rFails && !wFails)
    {
      if !dialled {
        Publish(if dial then Some(Tcp(true, 0, 0, [])) else None, rFails, wFails);
      }
      if err {
        return false;
      }
      return !closed && conn;
    }

    /** Both deadlines are the latest from now on: on a connection taken at once, unless setting them fails, and on
        one taken later when it is published. */
    method SetDeadline(t: Time, rFails: bool, wFails: bool) returns (failed: bool)
      requires Valid()
      modifies this
      ensures Valid() && rdeadline == wdeadline == t && Delivered() == old(Delivered())
      ensures failed <==> conn && (rFails || wFails)
      ensures conn && !failed ==> tcp.value.rd == tcp.value.wd == t
      ensures conn == old(conn) && closed == old(closed) && dialled == old(dialled)
      ensures View() == SetBothOf(old(View()), t, rFails, wFails)
    {
      rdeadline, wdeadline := t, t;
      if !conn {
        return false;
      }
      if rFails {
        rStale, wStale := true, true;
        return true;
      }
      tcp, rStale := Some(tcp.value.(rd := t)), false;
      if wFails {
        wStale := true;
        return true;
      }
      tcp, wStale := Some(tcp.value.(wd := t)), false;
      return false;
    }

    method SetReadDeadline(t: Time, fails: bool) returns (failed: bool)
      requires Valid()
      modifies this
      ensures Valid() && rdeadline == t && Delivered() == old(Delivered())
      ensures failed <==> conn && fails
      ensures conn && !failed ==> old(tcp).Some? && tcp.value.rd == t && tcp.value.wd == old(tcp).value.wd
      ensures View() == SetReadOf(old(View()), t, fails)
    {
      rdeadline := t;
      if !conn {
        return false;
      }
      failed, rStale := fails, fails;
      if !fails {
        tcp := Some(tcp.value.(rd := t));
      }
    }

    method SetWriteDeadline(t: Time, fails: bool) returns (failed: bool)
      requires Valid()
      modifies this
      ensures Valid() && wdeadline == t && Delivered() == old(Delivered())
      ensures failed <==> conn && fails
      ensures conn && !failed ==> old(tcp).Some? && tcp.value.wd == t && tcp.value.rd == old(tcp).value.rd
      ensures View() == SetWriteOf(old(View()), t, fails)
    {
      wdeadline := t;
      if !conn {
        return false;
      }
      failed, wStale := fails, fails;
      if !fails {
        tcp := Some(tcp.value.(wd := t));
      }
    }
  }

  // ---- every interleaving ----

  /** sync.Once: not run, being run by a caller, over. */
  datatype Once = Idle | Busy(who: nat) | Over

  /** A call in progress. A Read has no data of its own; its early data is empty. */
  datatype Call = Call(data: Option<Bytes>, pc: Pc)

  /** `After(true)` is the call that dialled; `Returning` has written and will report, `Finished` has reported. */
  datatype Pc =
    Start | AtOnce | Dialling | Publishing | After(first: bool) | HasConn
    | Returning(m: nat, whole: bool) | Finished(ok: bool, n: nat)

  /** `order` lists the Writes whose bytes reached the connection, as they did. */
  datatype State = State(core: Core, once: Once, dials: nat, calls: seq<Call>, order: seq<nat>)

  const START := State(NEW_CORE, Idle, 0, [], [])

  datatype Action =
    | CallWrite(data: Bytes)
    | CallRead
    | Check(i: nat)
    | Enter(i: nat)
    | Dial(i: nat, ok: bool)
    | Publish(i: nat, rFails: bool, wFails: bool)
    | Leave(i: nat)
    | Transfer(i: nat, n: nat)
    | Return(i: nat)
    | Close
    | SetRead(t: Time, fails: bool)
    | SetWrite(t: Time, fails: bool)
    | SetBoth(t: Time, rFails: bool, wFails: bool)

  function Early(c: Call): Bytes {
    if c.data.Some? then c.data.value else []
  }

  predicate At(s: State, i: nat, pc: Pc) {
    i < |s.calls| && s.calls[i].pc == pc
  }

  predicate Enabled(s: State, a: Action) {
    match a
    case Check(i) => At(s, i, Start)
    case Enter(i) => At(s, i, AtOnce) && !s.once.Busy?
    case Dial(i, _) => At(s, i, Dialling)
    case Publish(i, _, _) => At(s, i, Publishing)
    case Leave(i) => i < |s.calls| && s.calls[i].pc.After?
    case Transfer(i, n) =>
      At(s, i, HasConn) && s.core.tcp.Some? && n <= |Early(s.calls[i])| && (!s.core.tcp.value.open ==> n == 0)
    case Return(i) => i < |s.calls| && s.calls[i].pc.Returning?
    case _ => true
  }

  function Go(s: State, i: nat, pc: Pc): State
    requires i < |s.calls|
  {
    s.(calls := s.calls[i := s.calls[i].(pc := pc)])
  }

  function Apply(s: State, a: Action): State
    requires Enabled(s, a)
  {
    match a
    case CallWrite(data) => s.(calls := s.calls + [Call(Some(data), Start)])
    case CallRead => s.(calls := s.calls + [Call(None, AtOnce)])
    case Check(i) => Go(s, i, if s.core.closed then Finished(false, 0) else AtOnce)
    case Enter(i) =>
      if s.once.Idle? then Go(s, i, Dialling).(once := Busy(i)) else Go(s, i, After(false))
    case Dial(i, ok) =>
      Go(s, i, Publishing).(dials := s.dials + 1,
        core := s.core.(tcp := if ok then Some(Tcp(true, 0, 0, Early(s.calls[i]))) else None))
    case Publish(i, rFails, wFails) =>
      var core := PublishOf(s.core, rFails, wFails);
      Go(s, i, After(true)).(once := Over, core := core,
        order := if core.conn && s.calls[i].data.Some? then s.order + [i] else s.order)
    case Leave(i) => ApplyLeave(s, i)
    case Transfer(i, n) => ApplyTransfer(s, i, n)
    case Return(i) =>
      var pc := s.calls[i].pc;
      Go(s, i, Finished(pc.whole, pc.m))
    case Close => s.(core := CloseOf(s.core))
    case SetRead(t, fails) => s.(core := SetReadOf(s.core, t, fails))
    case SetWrite(t, fails) => s.(core := SetWriteOf(s.core, t, fails))
    case SetBoth(t, rFails, wFails) => s.(core := SetBothOf(s.core, t, rFails, wFails))
  }

  /** What a call does once the once-guard lets it through. */
  function ApplyLeave(s: State, i: nat): State
    requires i < |s.calls| && s.calls[i].pc.After?
  {
    var c := s.calls[i];
    if s.core.err then Go(s, i, Finished(false, 0))
    else if c.data.Some? && c.pc.first then Go(s, i, Finished(true, |c.data.value|))
    else if !s.core.conn || (c.data.None? && s.core.closed) then Go(s, i, Finished(false, 0))
    else Go(s, i, HasConn)
  }

  /** The connection takes the first `n` bytes. */
  function ApplyTransfer(s: State, i: nat, n: nat): State
    requires Enabled(s, Transfer(i, n))
  {
    var c, tcp := s.calls[i], s.core.tcp.value;
    if c.data.None? then Go(s, i, Finished(true, 0))
    else
      Go(s, i, Returning(n, tcp.open && n == |Early(c)|)).(order := s.order + [i],
        core := s.core.(tcp := Some(tcp.(sent := tcp.sent + Early(c)[..n]))))
  }

  predicate Runs(s: State, acts: seq<Action>, t: State)
    decreases |acts|
  {
    if acts == [] then s == t else Enabled(s, acts[0]) && Runs(Apply(s, acts[0]), acts[1..], t)
  }

  // ---- what the calls report ----

  /** What a call has reported as written, or will report when it returns. */
  function Reported(c: Call): Bytes {
    var d := Early(c);
    match c.pc
    case After(true) => d
    case Returning(m, _) => d[..Min(m, |d|)]
    case Finished(_, n) => d[..Min(n, |d|)]
    case _ => []
  }

  function Reports(calls: seq<Call>, order: seq<nat>): (r: seq<Bytes>)
    ensures |r| == |order|
  {
    seq(|order|, k requires 0 <= k < |order| => if order[k] < |calls| then Reported(calls[order[k]]) else [])
  }

  /** A Write whose bytes may have reached the connection. */
  predicate Wrote(c: Call) {
    c.data.Some? && match c.pc
      case After(first) => first
      case Returning(m, whole) => m <= |c.data.value| && (whole ==> m == |c.data.value|)
      case Finished(ok, n) => n <= |c.data.value|
      case _ => false
  }

  predicate Inside(pc: Pc) {
    pc.Dialling? || pc.Publishing?
  }

  /** What holds before the once-guard has run, while it runs and after. */
  ghost predicate CoreOk(s: State) {
    var c := s.core;
    match s.once
    case Idle => s.dials == 0 && c.tcp == None && !c.conn && !c.err
    case Busy(i) =>
      && i < |s.calls| && !c.conn && !c.err && Inside(s.calls[i].pc)
      && (s.calls[i].pc.Dialling? ==> s.dials == 0 && c.tcp == None)
      && (s.calls[i].pc.Publishing? ==> s.dials == 1)
      && (s.calls[i].pc.Publishing? && c.tcp.Some? ==> c.tcp.value.open && c.tcp.value.sent == Early(s.calls[i]))
    case Over =>
      && s.dials == 1
      && c.err == !c.conn
      && (c.conn ==> c.tcp.Some?)
      && (c.tcp.Some? ==> (c.tcp.value.open <==> c.conn && !c.closed))
      && (c.conn ==> (c.rStale || c.tcp.value.rd == c.rd) && (c.wStale || c.tcp.value.wd == c.wd))
  }

  ghost predicate OrderOk(s: State) {
    && (forall k :: 0 <= k < |s.order| ==> s.order[k] < |s.calls| && Wrote(s.calls[s.order[k]]))
    && (forall j, k :: 0 <= j < k < |s.order| ==> s.order[j] != s.order[k])
    && (if s.core.conn then s.core.tcp.Some? && s.core.tcp.value.sent == Flatten(Reports(s.calls, s.order))
        else s.order == [])
  }

  ghost predicate CallOk(s: State, i: nat)
    requires i < |s.calls|
  {
    var c := s.calls[i];
    match c.pc
    case Start => c.data.Some?
    case AtOnce => true
    case Dialling => s.once == Busy(i)
    case Publishing => s.once == Busy(i)
    case After(first) => s.once.Over? && (first && s.core.conn && c.data.Some? ==> i in s.order)
    case HasConn => s.once.Over? && s.core.conn
    case Returning(m, whole) => s.once.Over? && s.core.conn && i in s.order
    case Finished(ok, n) =>
      c.data.Some? ==> n <= |c.data.value| && (ok ==> n == |c.data.value|) && (n > 0 ==> i in s.order)
  }

  ghost predicate Inv(s: State) {
    && CoreOk(s)
    && OrderOk(s)
    && (forall i :: 0 <= i < |s.calls| ==> CallOk(s, i))
    && (!s.core.conn ==> !s.core.rStale && !s.core.wStale)
  }

  /** The calls other than `i` do not notice what `i` does, unless it runs the once-guard. */
  lemma OthersOk(s: State, t: State, i: nat)
    requires Inv(s) && i < |s.calls| == |t.calls|
    requires forall j :: 0 <= j < |s.calls| && j != i ==> t.calls[j] == s.calls[j]
    requires t.once == s.once || (s.once == Idle && t.once == Busy(i)) || (s.once == Busy(i) && t.once == Over)
    requires s.once.Over? ==> t.core.conn == s.core.conn
    requires s.order <= t.order
    requires CallOk(t, i)
    ensures forall j :: 0 <= j < |t.calls| ==> CallOk(t, j)
  {
    forall j | 0 <= j < |t.calls|
      ensures CallOk(t, j)
    {
      assert CallOk(s, j);
      assert j in s.order ==> j in t.order;
    }
  }

  /** A call that goes on reporting the same, or that is not listed, leaves the reports alone. */
  lemma SameReports(s: State, t: State, i: nat)
    requires OrderOk(s) && i < |s.calls| == |t.calls| && t.calls == s.calls[i := t.calls[i]] && t.order == s.order
    requires t.core.conn == s.core.conn && (s.core.conn ==> t.core.tcp.Some? && s.core.tcp.Some?)
    requires s.core.conn ==> t.core.tcp.value.sent == s.core.tcp.value.sent
    requires i in s.order ==> Wrote(t.calls[i]) && Reported(t.calls[i]) == Reported(s.calls[i])
    ensures OrderOk(t)
  {
    hide Reported, Wrote;
    assert Reports(t.calls, t.order) == Reports(s.calls, s.order);
  }

  lemma StepQuiet(s: State, a: Action)
    requires Inv(s) && Enabled(s, a) && (a.Check? || a.Enter? || a.Dial?)
    ensures Inv(Apply(s, a))
  {
    assert CallOk(s, a.i);
    assert !Wrote(s.calls[a.i]);
    SameReports(s, Apply(s, a), a.i);
    OthersOk(s, Apply(s, a), a.i);
  }

  lemma CoreSame(s: State, t: State)
    requires CoreOk(s) && s.once.Over? && t.once == s.once && t.core == s.core && t.dials == s.dials
    ensures CoreOk(t)
  {
  }

  lemma StepLeave(s: State, a: Action)
    requires Inv(s) && Enabled(s, a) && (a.Leave? || a.Return?)
    ensures Inv(Apply(s, a))
  {
    hide CoreOk, Reports, OrderOk;
    var c, t := s.calls[a.i], Apply(s, a);
    assert CallOk(s, a.i);
    assert Early(c)[..|Early(c)|] == Early(c);
    Listed(s, a.i);
    SameReports(s, t, a.i);
    CoreSame(s, t);
    OthersOk(s, t, a.i);
  }

  /** What is listed has written, on a connection taken. */
  lemma Listed(s: State, i: nat)
    requires CoreOk(s) && OrderOk(s) && i < |s.calls| && s.once.Over?
    ensures i in s.order ==> Wrote(s.calls[i]) && s.core.conn && !s.core.err
    ensures s.core.conn ==> s.core.tcp.Some?
  {
  }

  lemma OneReport(calls: seq<Call>, i: nat)
    requires i < |calls|
    ensures Flatten(Reports(calls, [i])) == Reported(calls[i]) && Flatten(Reports(calls, [])) == []
  {
    hide Reported;
    var r := Reports(calls, [i]);
    assert r == [Reported(calls[i])] && r[1..] == [];
    assert Flatten(r) == Reported(calls[i]) + Flatten([]);
  }

  lemma PublishCore(s: State, i: nat, rFails: bool, wFails: bool)
    requires CoreOk(s) && s.once == Busy(i) && Enabled(s, Publish(i, rFails, wFails))
    ensures CoreOk(Apply(s, Publish(i, rFails, wFails)))
    ensures var c, d := s.core, Apply(s, Publish(i, rFails, wFails)).core;
      && (d.conn ==> d.tcp.Some? && d.tcp.value.sent == Early(s.calls[i]))
      && d.rStale == c.rStale && d.wStale == c.wStale
  {
    hide Early;
  }

  lemma StepPublish(s: State, i: nat, rFails: bool, wFails: bool)
    requires Inv(s) && Enabled(s, Publish(i, rFails, wFails))
    ensures Inv(Apply(s, Publish(i, rFails, wFails)))
  {
    hide CoreOk, Reports, PublishOf;
    var t := Apply(s, Publish(i, rFails, wFails));
    assert CallOk(s, i);
    assert !s.core.conn by { BusyNotTaken(s, i); }
    assert s.order == [] && [] + [i] == [i];
    PublishCore(s, i, rFails, wFails);
    OneReport(t.calls, i);
    OthersOk(s, t, i);
  }

  lemma BusyNotTaken(s: State, i: nat)
    requires CoreOk(s) && s.once == Busy(i)
    ensures !s.core.conn
  {
  }

  /** One more Write in the order adds its report. */
  lemma MoreReports(was: seq<Call>, calls: seq<Call>, order: seq<nat>, i: nat)
    requires i < |was| == |calls| && calls == was[i := calls[i]] && i !in order
    ensures Flatten(Reports(calls, order + [i])) == Flatten(Reports(was, order)) + Reported(calls[i])
  {
    hide Reported;
    assert Reports(calls, order + [i]) == Reports(was, order) + [Reported(calls[i])];
    FlattenAppend(Reports(was, order), Reported(calls[i]));
  }

  lemma StepTransfer(s: State, i: nat, n: nat)
    requires Inv(s) && Enabled(s, Transfer(i, n))
    ensures Inv(Apply(s, Transfer(i, n)))
  {
    var t := Apply(s, Transfer(i, n));
    assert CallOk(s, i);
    assert !Wrote(s.calls[i]) && i !in s.order;
    if s.calls[i].data.None? {
      SameReports(s, t, i);
    } else {
      MoreReports(s.calls, t.calls, s.order, i);
      forall k | 0 <= k < |t.order|
        ensures t.order[k] < |t.calls| && Wrote(t.calls[t.order[k]])
      {
        if k < |s.order| { assert s.order[k] != i; }
      }
    }
    OthersOk(s, t, i);
  }

  lemma StepNew(s: State, a: Action)
    requires Inv(s) && Enabled(s, a) && (a.CallWrite? || a.CallRead?)
    ensures Inv(Apply(s, a))
  {
    var t := Apply(s, a);
    assert Reports(t.calls, t.order) == Reports(s.calls, s.order);
    forall j | 0 <= j < |t.calls|
      ensures CallOk(t, j)
    {
      if j < |s.calls| {
        assert CallOk(s, j);
      }
    }
  }

  predicate Locked(a: Action) {
    a.Close? || a.SetRead? || a.SetWrite? || a.SetBoth?
  }

  lemma LockedCore(s: State, a: Action)
    requires CoreOk(s) && Enabled(s, a) && Locked(a)
    requires !s.core.conn ==> !s.core.rStale && !s.core.wStale
    ensures var t := Apply(s, a);
      && CoreOk(t) && t.core.conn == s.core.conn
      && (!t.core.conn ==> !t.core.rStale && !t.core.wStale)
      && (s.core.conn && s.core.tcp.Some? ==> t.core.tcp.Some? && t.core.tcp.value.sent == s.core.tcp.value.sent)
  {
  }

  lemma StepLocked(s: State, a: Action)
    requires Inv(s) && Enabled(s, a) && Locked(a)
    ensures Inv(Apply(s, a))
  {
    hide CoreOk, Reports, CloseOf, SetReadOf, SetWriteOf, SetBothOf;
    var t := Apply(s, a);
    LockedCore(s, a);
    assert t.calls == s.calls && t.once == s.once && t.order == s.order;
    forall j | 0 <= j < |t.calls|
      ensures CallOk(t, j)
    {
      assert CallOk(s, j);
    }
  }

  lemma Step(s: State, a: Action)
    requires Inv(s) && Enabled(s, a)
    ensures Inv(Apply(s, a))
  {
    hide Inv, Apply;
    match a
    case Publish(i, rFails, wFails) => StepPublish(s, i, rFails, wFails);
    case Transfer(i, n) => StepTransfer(s, i, n);
    case CallWrite(_) => StepNew(s, a);
    case CallRead => StepNew(s, a);
    case Check(_) => StepQuiet(s, a);
    case Enter(_) => StepQuiet(s, a);
    case Dial(_, _) => StepQuiet(s, a);
    case Leave(_) => StepLeave(s, a);
    case Return(_) => StepLeave(s, a);
    case Close => StepLocked(s, a);
    case SetRead(_, _) => StepLocked(s, a);
    case SetWrite(_, _) => StepLocked(s, a);
    case SetBoth(_, _, _) => StepLocked(s, a);
  }

  lemma {:induction false} RunKeepsInv(s: State, acts: seq<Action>, t: State)
    requires Inv(s) && Runs(s, acts, t)
    ensures Inv(t)
    decreases |acts|
  {
    hide Inv, Apply, Enabled;
    if acts != [] {
      Step(s, acts[0]);
      RunKeepsInv(Apply(s, acts[0]), acts[1..], t);
    }
  }

  lemma Reached(acts: seq<Action>, t: State)
    requires Runs(START, acts, t)
    ensures Inv(t)
  {
    RunKeepsInv(START, acts, t);
  }

  /** In every interleaving: the dial runs at most once; once both Close and publish have happened the dialled
      connection is closed, and one the object did not take is closed at once, so none is left open unheld. */
  lemma DialledOnceAndNeverLeaked(acts: seq<Action>, t: State)
    requires Runs(START, acts, t)
    ensures t.dials <= 1
    ensures t.once.Over? && t.core.closed && t.core.tcp.Some? ==> !t.core.tcp.value.open
    ensures t.once.Over? && t.core.tcp.Some? && t.core.tcp.value.open ==> t.core.conn
    ensures t.once.Over? && !t.core.closed && t.core.conn ==> t.core.tcp.Some? && t.core.tcp.value.open
  {
    hide Runs;
    Reached(acts, t);
  }

  // ---- deadlines ----

  /** The side of a deadline. */
  datatype Side = Reading | Writing

  predicate Sets(a: Action, side: Side) {
    match a
    case SetRead(_, _) => side.Reading?
    case SetWrite(_, _) => side.Writing?
    case SetBoth(_, _, _) => true
    case _ => false
  }

  /** On a connection taken, the action fails to set the deadline: when the read side of SetDeadline fails, the
      write side is not tried. */
  predicate Fails(a: Action, side: Side) {
    match a
    case SetRead(_, fails) => fails
    case SetWrite(_, fails) => fails
    case SetBoth(_, rFails, wFails) => rFails || (side.Writing? && wFails)
    case _ => false
  }

  /** The deadline set last on the object, and the one its connection carries. */
  function Latest(c: Core, side: Side): Time {
    if side.Reading? then c.rd else c.wd
  }

  function Carried(c: Core, side: Side): Time
    requires c.tcp.Some?
  {
    if side.Reading? then c.tcp.value.rd else c.tcp.value.wd
  }

  predicate Stale(c: Core, side: Side) {
    if side.Reading? then c.rStale else c.wStale
  }

  ghost predicate NoneSets(acts: seq<Action>, side: Side) {
    forall a :: a in acts ==> !Sets(a, side)
  }

  lemma TakenHasTcp(s: State)
    requires Inv(s) && s.core.conn
    ensures s.core.tcp.Some? && s.once.Over?
  {
    hide CallOk;
  }

  lemma SidesAgree(s: State, side: Side)
    requires Inv(s) && s.core.conn && !Stale(s.core, side)
    ensures s.core.tcp.Some? && Carried(s.core, side) == Latest(s.core, side)
  {
    hide CallOk, OrderOk;
    TakenHasTcp(s);
  }

  lemma NotTakenYet(s: State, a: Action)
    requires Inv(s) && Enabled(s, a) && (a.Dial? || a.Publish?)
    ensures !s.core.conn
  {
    hide OrderOk;
    assert CallOk(s, a.i);
  }

  lemma OtherActions(s: State, a: Action, side: Side)
    requires Inv(s) && Enabled(s, a) && !Sets(a, side)
    ensures var t := Apply(s, a);
      && Latest(t.core, side) == Latest(s.core, side) && Stale(t.core, side) == Stale(s.core, side)
      && (s.core.conn ==>
        && t.core.conn && s.core.tcp.Some? && t.core.tcp.Some?
        && Carried(t.core, side) == Carried(s.core, side))
  {
    hide OrderOk, Reports, Early;
    if s.core.conn {
      TakenHasTcp(s);
    }
    if a.Dial? || a.Publish? {
      NotTakenYet(s, a);
    }
  }

  lemma SettingActions(s: State, a: Action, side: Side, time: Time)
    requires Inv(s) && Enabled(s, a) && Sets(a, side) && a.t == time
    ensures var t := Apply(s, a);
      && Latest(t.core, side) == time && t.core.conn == s.core.conn
      && (!s.core.conn ==> !Stale(t.core, side))
      && (s.core.conn ==>
        && s.core.tcp.Some? && t.core.tcp.Some? && Stale(t.core, side) == Fails(a, side)
        && (Fails(a, side) ==> Carried(t.core, side) == Carried(s.core, side)))
  {
    hide OrderOk, CallOk;
    if s.core.conn {
      TakenHasTcp(s);
    }
  }

  lemma {:induction false} OtherRun(s: State, acts: seq<Action>, t: State, side: Side)
    requires Inv(s) && Runs(s, acts, t) && NoneSets(acts, side)
    ensures Latest(t.core, side) == Latest(s.core, side) && Stale(t.core, side) == Stale(s.core, side)
    ensures s.core.conn ==> t.core.conn && s.core.tcp.Some? && t.core.tcp.Some?
    ensures s.core.conn ==> Carried(t.core, side) == Carried(s.core, side)
    decreases |acts|
  {
    hide Inv, Apply, Enabled;
    if acts == [] {
      if s.core.conn {
        TakenHasTcp(s);
      }
    } else {
      Step(s, acts[0]);
      OtherActions(s, acts[0], side);
      OtherRun(Apply(s, acts[0]), acts[1..], t, side);
    }
  }

  /** For every run and either side: let `a` be the last action that sets the deadline. A connection taken carries
      the time it sets, whether it was taken before or after, except if it was taken before and `a` failed on it:
      then it carries what it carried before. */
  lemma LatestDeadlines(acts: seq<Action>, s: State, a: Action, more: seq<Action>, t: State, side: Side)
    requires Runs(START, acts, s) && Enabled(s, a) && Runs(Apply(s, a), more, t)
    requires Sets(a, side) && NoneSets(more, side) && t.core.conn
    ensures t.core.tcp.Some? && Latest(t.core, side) == a.t
    ensures !(s.core.conn && Fails(a, side)) ==> Carried(t.core, side) == a.t
    ensures s.core.conn && Fails(a, side) ==> s.core.tcp.Some? && Carried(t.core, side) == Carried(s.core, side)
  {
    hide Runs, Apply, Inv, Enabled;
    Reached(acts, s);
    Step(s, a);
    SettingActions(s, a, side, a.t);
    OtherRun(Apply(s, a), more, t, side);
    RunKeepsInv(Apply(s, a), more, t);
    TakenHasTcp(t);
    if !(s.core.conn && Fails(a, side)) {
      SidesAgree(t, side);
    }
  }

  /** Without such an action, it carries none. */
  lemma NeverSet(acts: seq<Action>, t: State, side: Side)
    requires Runs(START, acts, t) && NoneSets(acts, side) && t.core.conn
    ensures t.core.tcp.Some? && Carried(t.core, side) == Latest(t.core, side) == 0
  {
    hide Runs;
    OtherRun(START, acts, t, side);
    Reached(acts, t);
    SidesAgree(t, side);
  }

  lemma {:induction false} NothingStale(s: State, acts: seq<Action>, t: State, side: Side)
    requires Inv(s) && Runs(s, acts, t) && !Stale(s.core, side)
    requires forall a :: a in acts ==> !Fails(a, side)
    ensures !Stale(t.core, side)
    decreases |acts|
  {
    hide Inv, Apply, Enabled;
    if acts != [] {
      var a := acts[0];
      Step(s, a);
      if Sets(a, side) {
        SettingActions(s, a, side, a.t);
      } else {
        OtherActions(s, a, side);
      }
      NothingStale(Apply(s, a), acts[1..], t, side);
    }
  }

  /** In a run in which no deadline fails to be set, a connection taken carries the latest ones. */
  lemma AlwaysLatest(acts: seq<Action>, t: State, side: Side)
    requires Runs(START, acts, t) && t.core.conn
    requires forall a :: a in acts ==> !Fails(a, side)
    ensures t.core.tcp.Some? && Carried(t.core, side) == Latest(t.core, side)
  {
    hide Runs;
    NothingStale(START, acts, t, side);
    Reached(acts, t);
    SidesAgree(t, side);
  }

  // ---- delivery ----

  /** A Write that has returned and reported at least one byte. */
  predicate ReportedBytes(c: Call) {
    c.data.Some? && c.pc.Finished? && c.pc.n > 0
  }

  /** In every interleaving the bytes on a published connection are what the Writes report, one Write after
      another: `order` lists each Write at most once, and every Write that reported a byte. */
  lemma DeliveredOnceInOrder(acts: seq<Action>, t: State)
    requires Runs(START, acts, t)
    ensures t.core.conn ==> t.core.tcp.Some? && t.core.tcp.value.sent == Flatten(Reports(t.calls, t.order))
    ensures forall j, k :: 0 <= j < k < |t.order| ==> t.order[j] != t.order[k]
    ensures forall i :: 0 <= i < |t.calls| && ReportedBytes(t.calls[i]) ==> i in t.order
    ensures !t.core.conn ==> t.order == []
  {
    hide Runs;
    Reached(acts, t);
    forall i | 0 <= i < |t.calls| && ReportedBytes(t.calls[i])
      ensures i in t.order
    {
      assert CallOk(t, i);
    }
  }

  lemma ActionGrows(s: State, a: Action)
    requires Inv(s) && Enabled(s, a)
    ensures var t := Apply(s, a);
      && s.order <= t.order && |s.calls| <= |t.calls|
      && (s.core.conn ==>
        && t.core.conn && s.core.tcp.Some? && t.core.tcp.Some?
        && s.core.tcp.value.sent <= t.core.tcp.value.sent)
  {
    hide OrderOk, Reports, Early;
    if s.core.conn {
      TakenHasTcp(s);
    }
    if a.Dial? || a.Publish? {
      NotTakenYet(s, a);
    }
  }

  /** Later actions only add behind: to the Writes that reached the connection, and to the bytes on it. */
  lemma {:induction false} OrderGrows(s: State, acts: seq<Action>, t: State)
    requires Inv(s) && Runs(s, acts, t)
    ensures s.order <= t.order && |s.calls| <= |t.calls|
    ensures s.core.conn ==> t.core.conn && s.core.tcp.Some? && t.core.tcp.Some?
    ensures s.core.conn ==> s.core.tcp.value.sent <= t.core.tcp.value.sent
    decreases |acts|
  {
    hide Inv, Apply, Enabled;
    if acts == [] {
      if s.core.conn {
        TakenHasTcp(s);
      }
    } else {
      Step(s, acts[0]);
      ActionGrows(s, acts[0]);
      OrderGrows(Apply(s, acts[0]), acts[1..], t);
    }
  }

  lemma ListedCalls(s: State)
    requires Inv(s)
    ensures forall k :: 0 <= k < |s.order| ==> s.order[k] < |s.calls|
    ensures forall i :: 0 <= i < |s.calls| && ReportedBytes(s.calls[i]) ==> i in s.order
  {
    hide CoreOk, Reports;
    forall i | 0 <= i < |s.calls| && ReportedBytes(s.calls[i])
      ensures i in s.order
    {
      assert CallOk(s, i);
    }
  }

  /** In every interleaving: a Write that had returned, reporting a byte, before another was called has its bytes
      before those of the other. */
  lemma ReturnedFirst(acts: seq<Action>, s: State, more: seq<Action>, t: State, i: nat, j: nat)
    requires Runs(START, acts, s) && Runs(s, more, t)
    requires i < |s.calls| && ReportedBytes(s.calls[i]) && |s.calls| <= j
    ensures i in t.order
    ensures forall m, n :: 0 <= m < |t.order| && 0 <= n < |t.order| && t.order[m] == i && t.order[n] == j ==> m < n
  {
    hide Runs;
    Reached(acts, s);
    OrderGrows(s, more, t);
    RunKeepsInv(s, more, t);
    ListedCalls(s);
    var m :| 0 <= m < |s.order| && s.order[m] == i;
    assert t.order[m] == i && t.order[..|s.order|] == s.order;
    assert forall n :: 0 <= n < |s.order| ==> t.order[n] == s.order[n];
    OnlyOnce(t);
  }

  lemma OnlyOnce(s: State)
    requires Inv(s)
    ensures forall m, n :: 0 <= m < |s.order| && 0 <= n < |s.order| && s.order[m] == s.order[n] ==> m == n
  {
    hide CoreOk, Reports, CallOk;
    assert OrderOk(s);
  }

  /** A call whose bytes are on the connection is a Write that has reported them, or is about to: the one that
      dialled, or one that has just written. */
  lemma OnlyWritersDeliver(acts: seq<Action>, t: State, k: nat)
    requires Runs(START, acts, t) && k < |t.order|
    ensures t.order[k] < |t.calls| && t.calls[t.order[k]].data.Some?
    ensures var c := t.calls[t.order[k]];
      c.pc == After(true) || c.pc.Returning?
      || (c.pc.Finished? && Reported(c) == c.data.value[..Min(c.pc.n, |c.data.value|)])
  {
    hide Runs;
    Reached(acts, t);
    assert Wrote(t.calls[t.order[k]]);
  }

  /** A Write that succeeds has put its whole data on the connection. */
  lemma SuccessIsDelivered(acts: seq<Action>, t: State, i: nat)
    requires Runs(START, acts, t) && i < |t.calls| && t.calls[i].data.Some?
    requires t.calls[i].pc.Finished? && t.calls[i].pc.ok
    ensures Reported(t.calls[i]) == t.calls[i].data.value && t.calls[i].pc.n == |t.calls[i].data.value|
    ensures t.calls[i].data.value != [] ==> t.core.conn && i in t.order
  {
    hide Runs;
    Reached(acts, t);
    assert CallOk(t, i);
    assert t.calls[i].data.value[..|t.calls[i].data.value|] == t.calls[i].data.value;
  }

  lemma {:induction false} RunMore(s: State, acts: seq<Action>, t: State, a: Action)
    requires Runs(s, acts, t) && Enabled(t, a)
    ensures Runs(s, acts + [a], Apply(t, a))
    decreases |acts|
  {
    hide Apply, Enabled;
    if acts == [] {
      assert [] + [a] == [a] && [a][1..] == [];
      assert Runs(Apply(t, a), [], Apply(t, a));
    } else {
      assert (acts + [a])[1..] == acts[1..] + [a] && (acts + [a])[0] == acts[0];
      RunMore(Apply(s, acts[0]), acts[1..], t, a);
    }
  }

  lemma NoActions(s: State)
    ensures Runs(s, [], s)
  {
  }

  /** Early data: the first Write dials and rides on the dial. */
  lemma EarlyData(b: Bytes, d: Time) returns (acts: seq<Action>, t: State)
    ensures Runs(START, acts, t)
    ensures t == State(Core(true, false, false, d, 0, Some(Tcp(true, d, 0, b)), false, false), Over, 1,
                       [Call(Some(b), Finished(true, |b|))], [0])
  {
    hide Runs;
    NoActions(START);
    acts, t := [], START;
    RunMore(START, acts, t, CallWrite(b));
    acts, t := acts + [CallWrite(b)], Apply(t, CallWrite(b));
    RunMore(START, acts, t, SetRead(d, true));
    acts, t := acts + [SetRead(d, true)], Apply(t, SetRead(d, true));
    RunMore(START, acts, t, Check(0));
    acts, t := acts + [Check(0)], Apply(t, Check(0));
    RunMore(START, acts, t, Enter(0));
    acts, t := acts + [Enter(0)], Apply(t, Enter(0));
    RunMore(START, acts, t, Dial(0, true));
    acts, t := acts + [Dial(0, true)], Apply(t, Dial(0, true));
    RunMore(START, acts, t, Publish(0, false, false));
    acts, t := acts + [Publish(0, false, false)], Apply(t, Publish(0, false, false));
    RunMore(START, acts, t, Leave(0));
    acts, t := acts + [Leave(0)], Apply(t, Leave(0));
  }

  /** A later Write goes on the connection the first one dialled, in two calls of one run; Close closes it. The bounds
      above are met. */
  lemma TwoWrites(b: Bytes, c: Bytes, d: Time) returns (acts: seq<Action>, t: State)
    ensures Runs(START, acts, t) && t.core.closed && t.dials == 1 && t.order == [0, 1]
    ensures t.core.tcp == Some(Tcp(false, d, 0, b + c))
    ensures t.calls == [Call(Some(b), Finished(true, |b|)), Call(Some(c), Finished(true, |c|))]
  {
    hide Runs;
    acts, t := EarlyData(b, d);
    assert c[..|c|] == c;
    RunMore(START, acts, t, CallWrite(c));
    acts, t := acts + [CallWrite(c)], Apply(t, CallWrite(c));
    RunMore(START, acts, t, Check(1));
    acts, t := acts + [Check(1)], Apply(t, Check(1));
    RunMore(START, acts, t, Enter(1));
    acts, t := acts + [Enter(1)], Apply(t, Enter(1));
    RunMore(START, acts, t, Leave(1));
    acts, t := acts + [Leave(1)], Apply(t, Leave(1));
    RunMore(START, acts, t, Transfer(1, |c|));
    acts, t := acts + [Transfer(1, |c|)], Apply(t, Transfer(1, |c|));
    RunMore(START, acts, t, Return(1));
    acts, t := acts + [Return(1)], Apply(t, Return(1));
    RunMore(START, acts, t, Close);
    acts, t := acts + [Close], Apply(t, Close);
  }

  /** Once the dial is over: without a connection a call fails; the Write that dialled is done, whole; any other Write
      goes to the connection, and a Read does as long as nobody has closed it. */
  lemma CallsGoOn(acts: seq<Action>, t: State, i: nat)
    requires Runs(START, acts, t) && Enabled(t, Leave(i))
    ensures var c := t.calls[i];
      Apply(t, Leave(i)).calls[i].pc ==
        if !t.core.conn then Finished(false, 0)
        else if c.data.Some? then if c.pc.first then Finished(true, |c.data.value|) else HasConn
        else if t.core.closed then Finished(false, 0) else HasConn
  {
    hide Runs;
    Reached(acts, t);
    assert CallOk(t, i);
  }

  lemma ClosedStep(s: State, a: Action)
    requires Inv(s) && Enabled(s, a) && s.core.closed && s.once.Over?
    ensures var t := Apply(s, a);
      && t.core.closed && t.once.Over? && t.core.tcp.Some? == s.core.tcp.Some?
      && (s.core.tcp.Some? ==> t.core.tcp.value.sent == s.core.tcp.value.sent)
  {
    hide OrderOk, Reports;
    if a.Dial? || a.Publish? {
      OnlyBusyInside(s, a);
    }
    if a.Transfer? {
      assert Early(s.calls[a.i])[..0] == [];
    }
  }

  lemma OnlyBusyInside(s: State, a: Action)
    requires Inv(s) && Enabled(s, a) && (a.Dial? || a.Publish?)
    ensures s.once.Busy?
  {
    hide OrderOk;
    assert CallOk(s, a.i);
  }

  /** After Close nothing more is delivered, whatever callers do. */
  lemma {:induction false} NothingAfterClose(s: State, acts: seq<Action>, t: State)
    requires Inv(s) && s.core.closed && s.once.Over? && Runs(s, acts, t)
    ensures t.core.tcp.Some? == s.core.tcp.Some?
    ensures s.core.tcp.Some? ==> t.core.tcp.value.sent == s.core.tcp.value.sent
    decreases |acts|
  {
    hide Inv, Apply, Enabled;
    if acts != [] {
      Step(s, acts[0]);
      ClosedStep(s, acts[0]);
      NothingAfterClose(Apply(s, acts[0]), acts[1..], t);
    }
  }

  lemma DeliveryEndsWithClose(acts: seq<Action>, s: State, more: seq<Action>, t: State)
    requires Runs(START, acts, s) && s.core.closed && s.once.Over? && Runs(s, more, t)
    ensures t.core.tcp.Some? == s.core.tcp.Some?
    ensures s.core.tcp.Some? ==> t.core.tcp.value.sent == s.core.tcp.value.sent
  {
    hide Runs, Inv;
    Reached(acts, s);
    NothingAfterClose(s, more, t);
  }
}
