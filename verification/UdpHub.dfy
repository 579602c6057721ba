/** The UDP association hub: sessions wait for their first datagram, are pinned to its sender, and go when
    their association ends. */
module UdpHub {
  import opened Bytes

  type IP = Bytes

  /** A UDP address. All three fields show in its text; only two count when addresses are compared. */
  datatype Addr = Addr(ip: IP, port: nat, zone: string)

  /** sameUDPAddr: the zone is not compared. */
  predicate Same(a: Addr, b: Addr) {
    a.ip == b.ip && a.port == b.port
  }

  type SessId = nat

  datatype Sess = Sess(peerIP: Option<IP>, declared: Option<Addr>, client: Option<Addr>)

  /** `sess` holds every session ever registered; `live` those not yet unregistered; `byClient` is keyed by
      the text of an address, which determines the address. */
  datatype Hub = Hub(sess: seq<Sess>, live: set<SessId>, pending: seq<SessId>, byClient: map<Addr, SessId>)

  const EMPTY := Hub([], {}, [], map[])

  // ---- matching ----

  /** udpAllowed for an unpinned session. */
  predicate PeerAllows(s: Sess, from: Addr) {
    s.peerIP.Some? ==> s.peerIP.value == from.ip
  }

  predicate ExactMatch(s: Sess, from: Addr) {
    s.declared.Some? && Same(s.declared.value, from) && PeerAllows(s, from)
  }

  predicate WildMatch(s: Sess, from: Addr) {
    s.declared.None? && PeerAllows(s, from)
  }

  predicate Waits(h: Hub, s: SessId) {
    s in h.pending && s < |h.sess|
  }

  function Exacts(h: Hub, from: Addr): set<SessId> {
    set s | s in h.pending && Waits(h, s) && ExactMatch(h.sess[s], from)
  }

  function Wilds(h: Hub, from: Addr): set<SessId> {
    set s | s in h.pending && Waits(h, s) && WildMatch(h.sess[s], from)
  }

  /** Sessions the index holds whose client is `from` up to its zone. */
  function Indexed(h: Hub, from: Addr): set<SessId> {
    set k | k in h.byClient && h.byClient[k] < |h.sess| && h.sess[h.byClient[k]].client.Some?
            && Same(h.sess[h.byClient[k]].client.value, from) :: h.byClient[k]
  }

  // ---- the rule, told by the fields of addresses alone ----

  /** The client has this address and port. */
  predicate ClientIs(s: Sess, from: Addr) {
    s.client.Some? && s.client.value.ip == from.ip && s.client.value.port == from.port
  }

  /** The session declared this address and port, and expects no other peer. */
  predicate Declared(s: Sess, from: Addr) {
    && s.declared.Some? && s.declared.value.ip == from.ip && s.declared.value.port == from.port
    && (s.peerIP.Some? ==> s.peerIP.value == from.ip)
  }

  /** The session declared nothing, and expects no other peer. */
  predicate Undeclared(s: Sess, from: Addr) {
    s.declared.None? && (s.peerIP.Some? ==> s.peerIP.value == from.ip)
  }

  /** Live sessions whose client has this address and port; no index is consulted. */
  function PinnedTo(h: Hub, from: Addr): set<SessId> {
    set s | s in h.live && s < |h.sess| && ClientIs(h.sess[s], from)
  }

  function PendingDeclared(h: Hub, from: Addr): set<SessId> {
    set s | s in h.pending && s < |h.sess| && Declared(h.sess[s], from)
  }

  function PendingUndeclared(h: Hub, from: Addr): set<SessId> {
    set s | s in h.pending && s < |h.sess| && Undeclared(h.sess[s], from)
  }

  ghost function TheOnly(ss: set<SessId>): Option<SessId> {
    if exists s :: ss == {s} then var s :| ss == {s}; Some(s) else None
  }

  // ---- the operations on values ----

  /** A second wildcard from the same known peer is turned away. */
  predicate WildcardBusy(h: Hub, peerIP: Option<IP>, declared: Option<Addr>) {
    declared.None? && peerIP.Some?
    && exists s :: s in h.pending && Waits(h, s) && h.sess[s].declared.None? && h.sess[s].peerIP == peerIP
  }

  function RegisterOf(h: Hub, peerIP: Option<IP>, declared: Option<Addr>): Hub {
    var s := |h.sess|;
    h.(sess := h.sess + [Sess(peerIP, declared, None)], live := h.live + {s}, pending := h.pending + [s])
  }

  function Without(ss: seq<SessId>, s: SessId): (r: seq<SessId>)
    ensures forall x :: x in r <==> x in ss && x != s
  {
    if ss == [] then [] else (if ss[0] == s then [] else [ss[0]]) + Without(ss[1..], s)
  }

  function UnregisterOf(h: Hub, s: SessId): Hub
    requires s < |h.sess|
  {
    h.(live := h.live - {s}, pending := Without(h.pending, s),
       byClient := if h.sess[s].client.None? then h.byClient else h.byClient - {h.sess[s].client.value})
  }

  function PinOf(h: Hub, s: SessId, from: Addr): Hub
    requires s < |h.sess|
  {
    h.(sess := h.sess[s := h.sess[s].(client := Some(from))],
       byClient := h.byClient[from := s], pending := Without(h.pending, s))
  }

  ghost function DispatchOf(h: Hub, from: Addr): (Hub, Option<SessId>) {
    if from in h.byClient then (h, Some(h.byClient[from]))
    else if Indexed(h, from) != {} then
      var s :| s in Indexed(h, from);
      (h.(byClient := h.byClient[from := s]), Some(s))
    else
      var r := TheOnly(if Exacts(h, from) != {} then Exacts(h, from) else Wilds(h, from));
      if r.Some? && r.value < |h.sess| then (PinOf(h, r.value, from), r) else (h, None)
  }

  // ---- what every reachable hub keeps ----

  predicate ClientFits(s: Sess) {
    s.client.Some? ==> PeerAllows(s, s.client.value) && (s.declared.Some? ==> Same(s.declared.value, s.client.value))
  }

  ghost predicate NoRepeats(ss: seq<SessId>) {
    forall i, j :: 0 <= i < j < |ss| ==> ss[i] != ss[j]
  }

  /** A live session is pending and unpinned, or pinned and found under its client's text. */
  predicate SessionOk(h: Hub, s: SessId)
    requires s < |h.sess|
  {
    && ClientFits(h.sess[s])
    && (s in h.pending ==> s in h.live && h.sess[s].client.None?)
    && (s in h.live && s !in h.pending ==>
      h.sess[s].client.Some? && h.sess[s].client.value in h.byClient && h.byClient[h.sess[s].client.value] == s)
  }

  predicate KeyOk(h: Hub, k: Addr)
    requires k in h.byClient
  {
    h.byClient[k] < |h.sess| && h.sess[h.byClient[k]].client.Some? && Same(h.sess[h.byClient[k]].client.value, k)
  }

  /** Two keys that differ only in zone belong to one session. */
  ghost predicate OneOwner(h: Hub) {
    forall j, k :: j in h.byClient && k in h.byClient && Same(j, k) ==> h.byClient[j] == h.byClient[k]
  }

  predicate SameWildcard(a: Sess, b: Sess) {
    a.declared.None? && b.declared.None? && a.peerIP.Some? && a.peerIP == b.peerIP
  }

  ghost predicate OneWildcard(h: Hub) {
    forall s: SessId, t: SessId :: Waits(h, s) && Waits(h, t) && SameWildcard(h.sess[s], h.sess[t]) ==> s == t
  }

  ghost predicate Inv(h: Hub) {
    && (forall s :: s in h.live ==> s < |h.sess|)
    && (forall s :: s in h.pending ==> s < |h.sess|)
    && (forall s :: 0 <= s < |h.sess| ==> SessionOk(h, s))
    && (forall k :: k in h.byClient ==> KeyOk(h, k))
    && NoRepeats(h.pending)
    && OneOwner(h)
    && OneWildcard(h)
  }

  /** The index is exact: every key is the client of a live session. */
  ghost predicate IndexExact(h: Hub) {
    forall k :: k in h.byClient ==>
      h.byClient[k] in h.live && h.byClient[k] < |h.sess| && h.sess[h.byClient[k]].client == Some(k)
  }

  /** A datagram from a pinned client under another zone. */
  ghost predicate ZoneAlias(h: Hub, from: Addr) {
    from !in h.byClient && Indexed(h, from) != {}
  }

  lemma InvEmpty()
    ensures Inv(EMPTY) && IndexExact(EMPTY)
  {
  }

  lemma RegisterKeeps(h: Hub, peerIP: Option<IP>, declared: Option<Addr>)
    requires Inv(h) && !WildcardBusy(h, peerIP, declared)
    ensures Inv(RegisterOf(h, peerIP, declared))
    ensures IndexExact(h) ==> IndexExact(RegisterOf(h, peerIP, declared))
  {
    var t := RegisterOf(h, peerIP, declared);
    assert forall i :: 0 <= i < |h.pending| ==> h.pending[i] in h.pending;
    forall s | 0 <= s < |t.sess|
      ensures SessionOk(t, s)
    {
      if s < |h.sess| {
        assert SessionOk(h, s);
      }
    }
    forall k | k in t.byClient
      ensures KeyOk(t, k)
    {
      assert KeyOk(h, k);
    }
    forall s: SessId | Waits(t, s) && s < |h.sess|
      ensures Waits(h, s)
    {
    }
  }

  lemma {:induction false} WithoutNoRepeats(ss: seq<SessId>, s: SessId)
    requires NoRepeats(ss)
    ensures NoRepeats(Without(ss, s))
  {
    if ss != [] {
      WithoutNoRepeats(ss[1..], s);
      assert forall i :: 0 <= i < |Without(ss[1..], s)| ==> Without(ss[1..], s)[i] in ss[1..];
    }
  }

  lemma UnregisterKeeps(h: Hub, s: SessId)
    requires Inv(h) && s in h.live
    ensures Inv(UnregisterOf(h, s))
    ensures IndexExact(h) ==> IndexExact(UnregisterOf(h, s))
  {
    var t := UnregisterOf(h, s);
    WithoutNoRepeats(h.pending, s);
    assert SessionOk(h, s);
    forall x | 0 <= x < |t.sess|
      ensures SessionOk(t, x)
    {
      assert SessionOk(h, x);
    }
    forall k | k in t.byClient
      ensures KeyOk(t, k)
    {
      assert KeyOk(h, k);
    }
    forall x: SessId | Waits(t, x)
      ensures Waits(h, x)
    {
    }
  }

  // ---- dispatch ----

  lemma AliasIndexed(h: Hub, from: Addr, k: Addr)
    requires Inv(h) && k in h.byClient
    ensures Same(k, from) ==> h.byClient[k] in Indexed(h, from)
  {
    assert KeyOk(h, k);
  }

  lemma NotIndexed(h: Hub, s: SessId)
    requires Inv(h) && s in h.pending
    ensures forall k :: k in h.byClient ==> h.byClient[k] != s
  {
    forall k | k in h.byClient
      ensures h.byClient[k] != s
    {
      assert KeyOk(h, k) && SessionOk(h, s);
    }
  }

  lemma PinKeepsKeys(h: Hub, s: SessId, from: Addr)
    requires Inv(h) && Waits(h, s) && from !in h.byClient && Indexed(h, from) == {}
    ensures var t := PinOf(h, s, from); (forall k :: k in t.byClient ==> KeyOk(t, k)) && OneOwner(t)
    ensures IndexExact(h) ==> IndexExact(PinOf(h, s, from))
  {
    var t := PinOf(h, s, from);
    NotIndexed(h, s);
    assert SessionOk(h, s);
    forall k | k in t.byClient
      ensures KeyOk(t, k)
    {
      if k != from { assert KeyOk(h, k); }
    }
    forall k | k in h.byClient
      ensures !Same(k, from)
    {
      AliasIndexed(h, from, k);
    }
  }

  lemma PinKeeps(h: Hub, s: SessId, from: Addr)
    requires Inv(h) && Waits(h, s) && from !in h.byClient && Indexed(h, from) == {}
    requires ExactMatch(h.sess[s], from) || WildMatch(h.sess[s], from)
    ensures Inv(PinOf(h, s, from))
    ensures IndexExact(h) ==> IndexExact(PinOf(h, s, from))
  {
    var t := PinOf(h, s, from);
    WithoutNoRepeats(h.pending, s);
    PinKeepsKeys(h, s, from);
    hide IndexExact, OneOwner, Indexed;
    NotIndexed(h, s);
    forall x | 0 <= x < |t.sess|
      ensures SessionOk(t, x)
    {
      assert SessionOk(h, x);
    }
    forall x: SessId | Waits(t, x)
      ensures Waits(h, x)
    {
    }
  }

  lemma AliasKeeps(h: Hub, s: SessId, from: Addr)
    requires Inv(h) && from !in h.byClient && s in Indexed(h, from)
    ensures Inv(h.(byClient := h.byClient[from := s]))
  {
    var t := h.(byClient := h.byClient[from := s]);
    forall x | 0 <= x < |t.sess|
      ensures SessionOk(t, x)
    {
      assert SessionOk(h, x);
    }
    forall k | k in t.byClient
      ensures KeyOk(t, k)
    {
      if k != from { assert KeyOk(h, k); }
    }
    var j :| j in h.byClient && h.byClient[j] == s && Same(h.sess[s].client.value, from);
    assert KeyOk(h, j);
    forall k | k in h.byClient && Same(k, from)
      ensures h.byClient[k] == s
    {
      assert Same(j, k);
    }
    forall x: SessId | Waits(t, x)
      ensures Waits(h, x)
    {
    }
  }

  /** Sessions found through different keys of one address are one session: the order in which the index is
      walked does not matter. */
  lemma IndexedUnique(h: Hub, from: Addr, s: SessId, t: SessId)
    requires Inv(h) && s in Indexed(h, from) && t in Indexed(h, from)
    ensures s == t
  {
    var j :| j in h.byClient && h.byClient[j] == s && Same(h.sess[s].client.value, from);
    var k :| k in h.byClient && h.byClient[k] == t && Same(h.sess[t].client.value, from);
    assert KeyOk(h, j) && KeyOk(h, k);
    assert Same(j, k);
  }

  lemma DispatchKeeps(h: Hub, from: Addr)
    requires Inv(h)
    ensures Inv(DispatchOf(h, from).0)
  {
    hide Inv;
    if from in h.byClient {
    } else if Indexed(h, from) != {} {
      var s := DispatchOf(h, from).1.value;
      AliasKeeps(h, s, from);
    } else {
      var ms := if Exacts(h, from) != {} then Exacts(h, from) else Wilds(h, from);
      var r := TheOnly(ms);
      if r.Some? && r.value < |h.sess| {
        assert r.value in ms;
        PinKeeps(h, r.value, from);
      }
    }
  }

  /** Dispatch keeps the index exact if and only if the datagram is not from a pinned client under another
      zone. */
  lemma DispatchIndexExact(h: Hub, from: Addr)
    requires Inv(h) && IndexExact(h)
    ensures IndexExact(DispatchOf(h, from).0) <==> !ZoneAlias(h, from)
  {
    if from !in h.byClient {
      if Indexed(h, from) != {} {
        var t, s := DispatchOf(h, from).0, DispatchOf(h, from).1.value;
        assert s in Indexed(h, from);
        var k :| k in h.byClient && h.byClient[k] == s;
        assert h.sess[s].client == Some(k) && k != from;
        assert t.byClient[from] == s && t.sess[s].client != Some(from);
      } else {
        var ms := if Exacts(h, from) != {} then Exacts(h, from) else Wilds(h, from);
        var r := TheOnly(ms);
        if r.Some? && r.value < |h.sess| {
          assert r.value in ms;
          PinKeeps(h, r.value, from);
        }
      }
    }
  }

  // ---- dispatch is the linear rule ----

  /** The rule without an index: the live session whose client has this address and port; else the only pending
      session that declared them; else, when none did, the only pending session that declared nothing; else none. */
  ghost function LinearRule(h: Hub, from: Addr): Option<SessId> {
    if PinnedTo(h, from) != {} then TheOnly(PinnedTo(h, from))
    else if PendingDeclared(h, from) != {} then TheOnly(PendingDeclared(h, from))
    else TheOnly(PendingUndeclared(h, from))
  }

  lemma FieldsDecide(h: Hub, from: Addr)
    ensures PendingDeclared(h, from) == Exacts(h, from) && PendingUndeclared(h, from) == Wilds(h, from)
  {
  }

  lemma TheOnlyIs(ss: set<SessId>, s: SessId)
    requires ss == {s}
    ensures TheOnly(ss) == Some(s)
  {
    var t := TheOnly(ss).value;
    assert t in {t} && s in ss;
  }

  lemma TheOnlyIn(ss: set<SessId>)
    ensures TheOnly(ss).Some? ==> TheOnly(ss).value in ss
  {
  }

  /** Dispatch is the linear rule if and only if the index holds no dead session for the address; with an exact
      index it never does. */
  lemma DispatchIsLinear(h: Hub, from: Addr)
    requires Inv(h)
    ensures DispatchOf(h, from).1 == LinearRule(h, from) <==> Indexed(h, from) <= h.live
    ensures IndexExact(h) ==> Indexed(h, from) <= h.live
  {
    PinnedIsIndexed(h, from);
    FieldsDecide(h, from);
    MatchesAreLive(h, from);
    TheOnlyIn(Exacts(h, from));
    TheOnlyIn(Wilds(h, from));
    if Indexed(h, from) == {} {
      if from in h.byClient {
        AliasIndexed(h, from, from);
      }
    } else {
      IndexedIsDispatched(h, from);
    }
  }

  /** When the index holds the address, dispatch goes by it. */
  lemma IndexedIsDispatched(h: Hub, from: Addr)
    requires Inv(h) && Indexed(h, from) != {}
    ensures var r := DispatchOf(h, from).1;
      r.Some? && Indexed(h, from) == {r.value} && TheOnly(Indexed(h, from)) == r
  {
    if from in h.byClient {
      AliasIndexed(h, from, from);
    }
    var s := DispatchOf(h, from).1.value;
    forall t | t in Indexed(h, from)
      ensures t == s
    {
      IndexedUnique(h, from, s, t);
    }
    assert Indexed(h, from) == {s};
    TheOnlyIs(Indexed(h, from), s);
  }

  lemma PinnedIsIndexed(h: Hub, from: Addr)
    requires Inv(h)
    ensures PinnedTo(h, from) == Indexed(h, from) * h.live
  {
    forall s | s in PinnedTo(h, from)
      ensures s in Indexed(h, from)
    {
      assert SessionOk(h, s);
      assert h.sess[s].client.value in h.byClient;
    }
  }

  lemma MatchesAreLive(h: Hub, from: Addr)
    requires Inv(h)
    ensures Exacts(h, from) <= h.live && Wilds(h, from) <= h.live
  {
    forall s | s in h.pending
      ensures s in h.live
    {
      assert SessionOk(h, s);
    }
  }

  /** When every peer address is known, two wildcards never match one datagram. */
  lemma WildcardsNeverClash(h: Hub, from: Addr, s: SessId, t: SessId)
    requires Inv(h) && s in Wilds(h, from) && t in Wilds(h, from)
    requires h.sess[s].peerIP.Some? && h.sess[t].peerIP.Some?
    ensures s == t
  {
    assert SameWildcard(h.sess[s], h.sess[t]);
  }

  // ---- every run ----

  datatype Op = Register(peerIP: Option<IP>, declared: Option<Addr>) | Unregister(s: SessId) | Dispatch(from: Addr)

  predicate Allowed(h: Hub, op: Op) {
    op.Unregister? ==> op.s in h.live && op.s < |h.sess|
  }

  ghost function Do(h: Hub, op: Op): Hub
    requires Allowed(h, op)
  {
    match op
    case Register(peerIP, declared) => if WildcardBusy(h, peerIP, declared) then h else RegisterOf(h, peerIP, declared)
    case Unregister(s) => UnregisterOf(h, s)
    case Dispatch(from) => DispatchOf(h, from).0
  }

  ghost predicate Runs(h: Hub, ops: seq<Op>, t: Hub)
    decreases |ops|
  {
    if ops == [] then h == t else Allowed(h, ops[0]) && Runs(Do(h, ops[0]), ops[1..], t)
  }

  lemma DoKeeps(h: Hub, op: Op)
    requires Inv(h) && Allowed(h, op)
    ensures Inv(Do(h, op))
  {
    hide Inv;
    match op
    case Register(peerIP, declared) =>
      if !WildcardBusy(h, peerIP, declared) {
        RegisterKeeps(h, peerIP, declared);
      }
    case Unregister(s) => UnregisterKeeps(h, s);
    case Dispatch(from) => DispatchKeeps(h, from);
  }

  lemma {:induction false} RunKeepsInv(h: Hub, ops: seq<Op>, t: Hub)
    requires Inv(h) && Runs(h, ops, t)
    ensures Inv(t)
    decreases |ops|
  {
    hide Inv, Do;
    if ops != [] {
      DoKeeps(h, ops[0]);
      RunKeepsInv(Do(h, ops[0]), ops[1..], t);
    }
  }

  /** No session is pending and pinned, none is listed twice, a pinned client is one its session allows, and a
      known peer has one wildcard pending at most: in every reachable hub. */
  lemma EveryHub(ops: seq<Op>, t: Hub, s: SessId)
    requires Runs(EMPTY, ops, t) && s < |t.sess|
    ensures NoRepeats(t.pending) && OneWildcard(t)
    ensures s in t.pending ==> t.sess[s].client.None? && s !in t.byClient.Values
    ensures t.sess[s].client.Some? ==> s !in t.pending && ClientFits(t.sess[s])
    ensures s in t.live ==> (s in t.pending <==> t.sess[s].client.None?)
  {
    InvEmpty();
    RunKeepsInv(EMPTY, ops, t);
    assert SessionOk(t, s);
    forall k | k in t.byClient
      ensures t.byClient[k] == s ==> t.sess[s].client.Some?
    {
      assert KeyOk(t, k);
    }
  }

  /** A datagram handed to a session comes from the address and port of that session's client, who is the peer it
      expects and has the address and port it declared: over every run. */
  lemma HandedToItsClient(ops: seq<Op>, h: Hub, from: Addr)
    requires Runs(EMPTY, ops, h)
    ensures var (t, r) := DispatchOf(h, from);
      r.Some? ==>
        && r.value < |t.sess| && ClientIs(t.sess[r.value], from)
        && (t.sess[r.value].peerIP.Some? ==> t.sess[r.value].peerIP.value == from.ip)
        && (t.sess[r.value].declared.Some? ==>
          t.sess[r.value].declared.value.ip == from.ip && t.sess[r.value].declared.value.port == from.port)
  {
    InvEmpty();
    RunKeepsInv(EMPTY, ops, h);
    DispatchKeeps(h, from);
    var (t, r) := DispatchOf(h, from);
    TheOnlyIn(Exacts(h, from));
    TheOnlyIn(Wilds(h, from));
    if r.Some? {
      if from in h.byClient {
        assert KeyOk(h, from);
      }
      assert r.value < |t.sess|;
      assert SessionOk(t, r.value);
    }
  }

  /** A datagram whose address and port are no indexed client's goes to the only pending session that declared them,
      or, when none did, to the only one that declared nothing, and to nobody when there are several or none; who
      gets it is pinned to it. */
  lemma NewClient(ops: seq<Op>, h: Hub, from: Addr, s: SessId)
    requires Runs(EMPTY, ops, h)
    requires forall k :: k in h.byClient ==> h.byClient[k] >= |h.sess| || !ClientIs(h.sess[h.byClient[k]], from)
    ensures var ms := if PendingDeclared(h, from) != {} then PendingDeclared(h, from) else PendingUndeclared(h, from);
      && (DispatchOf(h, from).1 == Some(s) <==> s in ms && forall t :: t in ms ==> t == s)
      && (DispatchOf(h, from).1 == Some(s) ==> s < |h.sess| && DispatchOf(h, from).0 == PinOf(h, s, from))
  {
    InvEmpty();
    RunKeepsInv(EMPTY, ops, h);
    FieldsDecide(h, from);
    assert Indexed(h, from) == {};
    var ms := if Exacts(h, from) != {} then Exacts(h, from) else Wilds(h, from);
    TheOnlyIn(ms);
    if s in ms && forall t :: t in ms ==> t == s {
      assert ms == {s};
      TheOnlyIs(ms, s);
    }
    if TheOnly(ms).Some? {
      OneIn(ms);
    }
  }

  lemma OneIn(ms: set<SessId>)
    requires TheOnly(ms).Some?
    ensures ms == {TheOnly(ms).value}
  {
  }

  /** Addresses that are the same address have the same text. */
  predicate Canonical(addrs: set<Addr>) {
    forall a, b :: a in addrs && b in addrs && Same(a, b) ==> a == b
  }

  predicate FromAmong(ops: seq<Op>, addrs: set<Addr>) {
    forall i :: 0 <= i < |ops| && ops[i].Dispatch? ==> ops[i].from in addrs
  }

  lemma DoExact(h: Hub, op: Op, addrs: set<Addr>)
    requires Inv(h) && Allowed(h, op) && IndexExact(h)
    requires h.byClient.Keys <= addrs && Canonical(addrs) && (op.Dispatch? ==> op.from in addrs)
    ensures IndexExact(Do(h, op)) && Do(h, op).byClient.Keys <= addrs
  {
    match op
    case Register(peerIP, declared) =>
      if !WildcardBusy(h, peerIP, declared) {
        RegisterKeeps(h, peerIP, declared);
      }
    case Unregister(s) => UnregisterKeeps(h, s);
    case Dispatch(from) =>
      DispatchIndexExact(h, from);
  }

  /** As long as the clients' addresses have canonical text, every run keeps the index exact, so that every
      dispatch is the linear rule. */
  lemma {:induction false} CanonicalRunExact(h: Hub, ops: seq<Op>, t: Hub, addrs: set<Addr>)
    requires Inv(h) && IndexExact(h) && Runs(h, ops, t)
    requires h.byClient.Keys <= addrs && Canonical(addrs) && FromAmong(ops, addrs)
    ensures Inv(t) && IndexExact(t)
    decreases |ops|
  {
    hide Inv, IndexExact, Do;
    if ops != [] {
      DoKeeps(h, ops[0]);
      DoExact(h, ops[0], addrs);
      CanonicalRunExact(Do(h, ops[0]), ops[1..], t, addrs);
    }
  }

  /** In particular when no address has a zone. */
  lemma ZonelessRunExact(ops: seq<Op>, t: Hub)
    requires Runs(EMPTY, ops, t)
    requires forall i :: 0 <= i < |ops| && ops[i].Dispatch? ==> ops[i].from.zone == ""
    ensures IndexExact(t) && forall from :: DispatchOf(t, from).1 == LinearRule(t, from)
  {
    hide IndexExact, LinearRule, DispatchOf;
    InvEmpty();
    var addrs := set op | op in ops && op.Dispatch? :: op.from;
    ZonelessCanonical(addrs);
    CanonicalRunExact(EMPTY, ops, t, addrs);
    forall from
      ensures DispatchOf(t, from).1 == LinearRule(t, from)
    {
      DispatchIsLinear(t, from);
    }
  }

  lemma ZonelessCanonical(addrs: set<Addr>)
    requires forall a :: a in addrs ==> a.zone == ""
    ensures Canonical(addrs)
  {
  }

  /** A pinned session keeps its client for as long as it is live, and its client's datagrams reach it. */
  lemma PinnedUntilUnregister(h: Hub, op: Op, s: SessId)
    requires Inv(h) && Allowed(h, op) && s in h.live && h.sess[s].client.Some? && op != Unregister(s)
    ensures var t := Do(h, op); s in t.live && s < |t.sess| && t.sess[s] == h.sess[s]
    ensures DispatchOf(h, h.sess[s].client.value).1 == Some(s)
  {
    assert SessionOk(h, s);
    if op.Dispatch? && op.from !in h.byClient && Indexed(h, op.from) == {} {
      var ms := if Exacts(h, op.from) != {} then Exacts(h, op.from) else Wilds(h, op.from);
      TheOnlyIn(ms);
      assert s !in ms;
    }
  }

  /** Over every run that does not unregister it, a pinned session stays live, keeps its client, and its client's
      datagrams reach it and nobody else. */
  lemma {:induction false} PinnedThroughout(h: Hub, ops: seq<Op>, t: Hub, s: SessId)
    requires Inv(h) && Runs(h, ops, t) && forall i :: 0 <= i < |ops| ==> ops[i] != Unregister(s)
    requires s in h.live && s < |h.sess| && h.sess[s].client.Some?
    ensures Inv(t) && s in t.live && s < |t.sess| && t.sess[s] == h.sess[s]
    ensures DispatchOf(t, h.sess[s].client.value).1 == Some(s)
    decreases |ops|
  {
    hide Inv, Do, DispatchOf;
    if ops == [] {
      PinnedUntilUnregister(h, Dispatch(h.sess[s].client.value), s);
    } else {
      assert ops[0] != Unregister(s);
      PinnedUntilUnregister(h, ops[0], s);
      DoKeeps(h, ops[0]);
      PinnedThroughout(Do(h, ops[0]), ops[1..], t, s);
    }
  }

  // ---- after unregister ----

  ghost predicate Gone(h: Hub, s: SessId) {
    s < |h.sess| && s !in h.live && s !in h.pending && forall k :: k in h.byClient ==> h.byClient[k] != s
  }

  /** An unregistered session is out of the hub if and only if the index held it under its client's text only. */
  lemma UnregisterRemoves(h: Hub, s: SessId)
    requires Inv(h) && s in h.live
    ensures Gone(UnregisterOf(h, s), s) <==>
      forall k :: k in h.byClient && h.byClient[k] == s ==> h.sess[s].client == Some(k)
  {
    var t := UnregisterOf(h, s);
    forall k | k in h.byClient && h.byClient[k] == s
      ensures k in t.byClient || h.sess[s].client == Some(k)
    {
    }
  }

  /** A session that is out of the hub is never handed out again, whatever happens. */
  lemma GoneStays(h: Hub, op: Op, s: SessId)
    requires Inv(h) && Allowed(h, op) && Gone(h, s)
    ensures Gone(Do(h, op), s)
    ensures op.Dispatch? ==> DispatchOf(h, op.from).1 != Some(s)
  {
    if op.Dispatch? {
      TheOnlyIn(Exacts(h, op.from));
      TheOnlyIn(Wilds(h, op.from));
      assert s !in Indexed(h, op.from);
    }
  }

  lemma {:induction false} NeverReturned(h: Hub, ops: seq<Op>, t: Hub, s: SessId, from: Addr)
    requires Inv(h) && Gone(h, s) && Runs(h, ops, t)
    ensures DispatchOf(t, from).1 != Some(s)
    decreases |ops|
  {
    hide Do, Inv;
    if ops == [] {
      GoneStays(h, Dispatch(from), s);
    } else {
      DoKeeps(h, ops[0]);
      GoneStays(h, ops[0], s);
      NeverReturned(Do(h, ops[0]), ops[1..], t, s, from);
    }
  }

  /** Over no run from `h` is a datagram given to `s`. */
  ghost predicate NeverAgain(h: Hub, s: SessId) {
    forall ops, t, from :: Runs(h, ops, t) ==> DispatchOf(t, from).1 != Some(s)
  }

  /** So unregistering a session is for good if and only if the index held it under its client's text only. */
  lemma UnregisterIsForGood(h: Hub, s: SessId)
    requires Inv(h) && s in h.live
    ensures NeverAgain(UnregisterOf(h, s), s) <==>
      forall k :: k in h.byClient && h.byClient[k] == s ==> h.sess[s].client == Some(k)
  {
    assert s < |h.sess|;
    hide Inv;
    var u := UnregisterOf(h, s);
    UnregisterRemoves(h, s);
    UnregisterKeeps(h, s);
    if Gone(u, s) {
      forall ops, t, from | Runs(u, ops, t)
        ensures DispatchOf(t, from).1 != Some(s)
      {
        NeverReturned(u, ops, t, s, from);
      }
    } else {
      var k :| k in h.byClient && h.byClient[k] == s && h.sess[s].client != Some(k);
      assert k in u.byClient && u.byClient[k] == s;
      assert Runs(u, [], u) && DispatchOf(u, k).1 == Some(s);
    }
  }

  /** What goes wrong otherwise, in every hub where it can: a datagram from a pinned client under another zone
      leaves a second key, and once the session is unregistered that address still reaches it. */
  lemma AliasOutlives(h: Hub, from: Addr)
    requires Inv(h) && IndexExact(h) && ZoneAlias(h, from)
    ensures var s := DispatchOf(h, from).1;
      && s.Some? && s.value in h.live && s.value < |h.sess|
      && DispatchOf(UnregisterOf(DispatchOf(h, from).0, s.value), from).1 == s
  {
    var r := DispatchOf(h, from);
    var s := r.1.value;
    assert s in Indexed(h, from);
    var k :| k in h.byClient && h.byClient[k] == s;
    assert h.sess[s].client == Some(k);
  }

  const LINK_LOCAL: IP := [0xFE, 0x80, 0, 0, 0, 0, 0, 0, 0, 0, 0, 0, 0, 0, 0, 1]

  /** fe80::1, port 5353, heard through either of two interfaces. */
  function Via(zone: string): Addr {
    Addr(LINK_LOCAL, 5353, zone)
  }

  /** The hub once a peer's wildcard has been registered and pinned to its first datagram. */
  function PinnedHub(): Hub {
    Hub([Sess(Some(LINK_LOCAL), None, Some(Via("eth0")))], {0}, [], map[Via("eth0") := 0])
  }

  lemma PinnedReached()
    ensures Runs(EMPTY, [Register(Some(LINK_LOCAL), None), Dispatch(Via("eth0"))], PinnedHub())
  {
    var a, peer := Via("eth0"), Some(LINK_LOCAL);
    var h := RegisterOf(EMPTY, peer, None);
    assert Wilds(h, a) == {0};
    TheOnlyIs(Wilds(h, a), 0);
    assert Without([0], 0) == Without([0][1..], 0) == [];
    assert h.sess == [Sess(peer, None, None)] && h.pending == [0] && h.live == {0};
    assert Indexed(h, a) == {} && Exacts(h, a) == {};
    assert PinOf(h, 0, a) == PinnedHub();
    assert DispatchOf(h, a) == (PinnedHub(), Some(0));
    var ops := [Register(peer, None), Dispatch(a)];
    assert ops[1..] == [Dispatch(a)] && ops[1..][1..] == [];
    assert Runs(PinnedHub(), [], PinnedHub());
    assert Do(EMPTY, ops[0]) == h;
    assert Runs(h, ops[1..], PinnedHub());
  }

  lemma PinnedIsExact()
    ensures Inv(PinnedHub()) && IndexExact(PinnedHub()) && ZoneAlias(PinnedHub(), Via("eth1"))
  {
    var h := PinnedHub();
    assert 0 in Indexed(h, Via("eth1")) by { assert Via("eth0") in h.byClient && h.byClient[Via("eth0")] == 0; }
  }

  /** The failure happens: one client of a known peer, heard through two interfaces; its session is unregistered,
      and its next datagram is still given to that session. */
  lemma AliasReachable() returns (u: Hub)
    ensures Runs(EMPTY, [Register(Some(LINK_LOCAL), None), Dispatch(Via("eth0")),
                         Dispatch(Via("eth1")), Unregister(0)], u)
    ensures 0 < |u.sess| && 0 !in u.live && DispatchOf(u, Via("eth1")).1 == Some(0)
  {
    hide Inv, IndexExact, DispatchOf;
    var a, b := Via("eth0"), Via("eth1");
    var h := PinnedHub();
    PinnedReached();
    PinnedIsExact();
    AliasOutlives(h, b);
    var first, rest := [Register(Some(LINK_LOCAL), None), Dispatch(a)], [Dispatch(b), Unregister(0)];
    var s := DispatchOf(h, b).1.value;
    assert s == 0;
    var t := Do(h, Dispatch(b));
    assert t == DispatchOf(h, b).0;
    StaysListed(h, b);
    u := UnregisterOf(t, 0);
    OnePlusOne(h, t, u, rest);
    RunsConcat(EMPTY, first, h, rest, u);
    assert first + rest == [Register(Some(LINK_LOCAL), None), Dispatch(a), Dispatch(b), Unregister(0)];
  }

  lemma OnePlusOne(h: Hub, t: Hub, u: Hub, ops: seq<Op>)
    requires |ops| == 2 && Allowed(h, ops[0]) && t == Do(h, ops[0]) && Allowed(t, ops[1]) && u == Do(t, ops[1])
    ensures Runs(h, ops, u)
  {
    hide Do;
    assert ops[1..][0] == ops[1] && ops[1..][1..] == [];
    assert Runs(u, [], u);
    assert Runs(t, ops[1..], u);
  }

  lemma StaysListed(h: Hub, from: Addr)
    ensures |DispatchOf(h, from).0.sess| == |h.sess| && DispatchOf(h, from).0.live == h.live
  {
  }

  lemma {:induction false} RunsConcat(h: Hub, a: seq<Op>, m: Hub, b: seq<Op>, t: Hub)
    requires Runs(h, a, m) && Runs(m, b, t)
    ensures Runs(h, a + b, t)
    decreases |a|
  {
    hide Do;
    if a == [] {
      assert a + b == b;
    } else {
      assert (a + b)[1..] == a[1..] + b;
      RunsConcat(Do(h, a[0]), a[1..], m, b, t);
    }
  }

  /** Unregistering a session a second time does no harm if and only if its client's text does not lead to another
      live session by now; otherwise that session, pinned to the same client since, is lost to the index. */
  lemma UnregisterTwice(h: Hub, s: SessId)
    requires Inv(h) && s < |h.sess| && s !in h.live
    ensures Inv(UnregisterOf(h, s)) <==>
      !(h.sess[s].client.Some? && exists t :: t in h.live && t < |h.sess| && h.sess[t].client == h.sess[s].client)
    ensures UnregisterOf(h, s).live == h.live && UnregisterOf(h, s).pending == h.pending
  {
    var u := UnregisterOf(h, s);
    assert SessionOk(h, s);
    WithoutAbsent(h.pending, s);
    assert h.live - {s} == h.live;
    if h.sess[s].client.Some? {
      var c := h.sess[s].client;
      if t :| t in h.live && t < |h.sess| && h.sess[t].client == c {
        assert SessionOk(h, t);
        assert !SessionOk(u, t);
      } else {
        forall x | 0 <= x < |u.sess|
          ensures SessionOk(u, x)
        {
          assert SessionOk(h, x);
        }
        forall k | k in u.byClient
          ensures KeyOk(u, k)
        {
          assert KeyOk(h, k);
        }
        forall x: SessId | Waits(u, x)
          ensures Waits(h, x)
        {
        }
      }
    }
  }

  // ---- the hub object ----

  lemma {:induction false} WithoutAppend(ss: seq<SessId>, x: SessId, s: SessId)
    ensures Without(ss + [x], s) == Without(ss, s) + (if x == s then [] else [x])
  {
    if ss == [] {
      assert ss + [x] == [x];
      assert Without([x][1..], s) == [];
    } else {
      assert (ss + [x])[1..] == ss[1..] + [x];
      WithoutAppend(ss[1..], x, s);
      Assoc(if ss[0] == s then [] else [ss[0]], Without(ss[1..], s), if x == s then [] else [x]);
    }
  }

  lemma {:induction false} WithoutAbsent(ss: seq<SessId>, s: SessId)
    requires s !in ss
    ensures Without(ss, s) == ss
  {
    if ss != [] {
      WithoutAbsent(ss[1..], s);
    }
  }

  /** Cutting out the only occurrence of `s`. */
  lemma {:induction false} WithoutCut(ss: seq<SessId>, i: nat)
    requires NoRepeats(ss) && i < |ss|
    ensures Without(ss, ss[i]) == ss[..i] + ss[i + 1..]
  {
    if i == 0 {
      assert forall j :: 0 <= j < |ss[1..]| ==> ss[1..][j] != ss[0];
      WithoutAbsent(ss[1..], ss[0]);
    } else {
      WithoutCut(ss[1..], i - 1);
      assert ss[..i] + ss[i + 1..] == [ss[0]] + (ss[1..][..i - 1] + ss[1..][i..]);
    }
  }

  /** One kind of match among the first `i` pending sessions: how many up to two, and where the last is. */
  ghost predicate Tally(ss: seq<SessId>, ms: set<SessId>, i: nat, n: nat, at: nat)
    requires i <= |ss|
  {
    && (n == 0 ==> forall j :: 0 <= j < i ==> ss[j] !in ms)
    && (n > 0 ==> at < i && ss[at] in ms)
    && (n == 1 ==> forall j :: 0 <= j < i && j != at ==> ss[j] !in ms)
    && (n > 1 ==> exists j, k :: 0 <= j < k < i && ss[j] in ms && ss[k] in ms)
  }

  lemma TallyStep(ss: seq<SessId>, ms: set<SessId>, i: nat, n: nat, at: nat)
    requires i < |ss| && Tally(ss, ms, i, n, at)
    ensures ss[i] in ms ==> Tally(ss, ms, i + 1, n + 1, i)
    ensures ss[i] !in ms ==> Tally(ss, ms, i + 1, n, at)
  {
    if ss[i] in ms && n == 1 {
      assert ss[at] in ms && ss[i] in ms;
    }
    if n > 1 {
      var j, k :| 0 <= j < k < i && ss[j] in ms && ss[k] in ms;
      assert 0 <= j < k < i + 1;
    }
  }

  lemma TallyStart(ss: seq<SessId>, ms: set<SessId>)
    ensures Tally(ss, ms, 0, 0, 0)
  {
  }

  lemma MatchMembers(h: Hub, from: Addr, s: SessId)
    requires Waits(h, s)
    ensures s in Exacts(h, from) <==> ExactMatch(h.sess[s], from)
    ensures s in Wilds(h, from) <==> WildMatch(h.sess[s], from)
  {
  }

  /** The counts decide what the sets decide. */
  lemma TallyDecides(ss: seq<SessId>, ms: set<SessId>, n: nat, at: nat)
    requires NoRepeats(ss) && Tally(ss, ms, |ss|, n, at) && forall s :: s in ms ==> s in ss
    ensures n == 0 <==> ms == {}
    ensures n == 1 ==> TheOnly(ms) == Some(ss[at])
    ensures n > 1 ==> TheOnly(ms) == None
  {
    if n == 1 {
      forall s | s in ms
        ensures s == ss[at]
      {
        var j :| 0 <= j < |ss| && ss[j] == s;
      }
      assert ms == {ss[at]};
      TheOnlyIs(ms, ss[at]);
    }
    if n > 1 {
      var j, k :| 0 <= j < k < |ss| && ss[j] in ms && ss[k] in ms;
      assert ss[j] != ss[k];
    }
  }

  class PacketHub {
    var sess: seq<Sess>
    ghost var live: set<SessId>
    var pending: seq<SessId>
    var byClient: map<Addr, SessId>

    constructor ()
      ensures View() == EMPTY && Valid()
    {
      sess, live, pending, byClient := [], {}, [], map[];
      new;
      InvEmpty();
    }

    ghost function View(): Hub
      reads this
    {
      Hub(sess, live, pending, byClient)
    }

    ghost predicate Valid()
      reads this
    {
      Inv(View())
    }

    method RegisterSession(peerIP: Option<IP>, declared: Option<Addr>) returns (r: Option<SessId>)
      requires Valid()
      modifies this
      ensures Valid() && View() == Do(old(View()), Register(peerIP, declared))
      ensures r.None? <==>
        && declared.None? && peerIP.Some?
        && exists s :: s in old(pending) && s < |old(sess)|
            && old(sess)[s].declared.None? && old(sess)[s].peerIP == peerIP
      ensures r.Some? ==>
        && r.value == |old(sess)| && sess == old(sess) + [Sess(peerIP, declared, None)]
        && pending == old(pending) + [r.value] && byClient == old(byClient)
      ensures r.None? ==> View() == old(View())
    {
      hide Inv;
      ghost var h := View();
      assert forall i :: 0 <= i < |pending| ==> pending[i] < |sess| by { PendingBelow(h); }
      if declared.None? && peerIP.Some? {
        for i := 0 to |pending|
          invariant View() == h
          invariant forall j :: 0 <= j < i ==>
            !(sess[pending[j]].declared.None? && sess[pending[j]].peerIP == peerIP)
        {
          var p := sess[pending[i]];
          if p.declared.None? && p.peerIP.Some? && p.peerIP.value == peerIP.value {
            assert Waits(h, pending[i]);
            return None;
          }
        }
      }
      assert !WildcardBusy(h, peerIP, declared);
      RegisterKeeps(h, peerIP, declared);
      r := Some(|sess|);
      live := live + {|sess|};
      pending := pending + [|sess|];
      sess := sess + [Sess(peerIP, declared, None)];
    }

    /** Also for a session that is no longer live, where the index may suffer. */
    method UnregisterSession(s: SessId)
      requires Valid() && s < |sess|
      modifies this
      ensures View() == UnregisterOf(old(View()), s)
      ensures sess == old(sess) && live == old(live) - {s} && forall x :: x in pending <==> x in old(pending) && x != s
      ensures forall k :: k in byClient <==> k in old(byClient) && sess[s].client != Some(k)
      ensures s in old(live) ==> Valid()
    {
      hide Inv;
      ghost var h, was := View(), pending;
      if s in live {
        UnregisterKeeps(h, s);
      }
      var n := 0;
      for i := 0 to |pending|
        invariant n <= i <= |pending| == |was|
        invariant sess == h.sess && byClient == h.byClient && live == h.live
        invariant pending[..n] == Without(was[..i], s)
        invariant pending[i..] == was[i..]
      {
        var p := pending[i];
        assert p == pending[i..][0] == was[i];
        assert was[..i + 1] == was[..i] + [was[i]];
        WithoutAppend(was[..i], was[i], s);
        assert pending[i + 1..] == pending[i..][1..] == was[i + 1..];
        if p != s {
          ghost var before := pending;
          pending := pending[n := p];
          assert pending[..n + 1] == before[..n] + [p];
          assert pending[i + 1..] == before[i + 1..];
          n := n + 1;
        }
      }
      assert was[..|was|] == was;
      pending := pending[..n];
      live := live - {s};
      if sess[s].client.Some? {
        byClient := byClient - {sess[s].client.value};
      }
    }

    method LookupPinned(from: Addr) returns (r: Option<SessId>)
      requires Valid()
      modifies this`byClient
      ensures old(from in byClient) ==> r == Some(old(byClient)[from]) && byClient == old(byClient)
      ensures old(from !in byClient) && r.Some? ==>
        r.value in Indexed(old(View()), from) && byClient == old(byClient)[from := r.value]
      ensures r.None? ==> Indexed(old(View()), from) == {} && byClient == old(byClient)
    {
      if from in byClient {
        return Some(byClient[from]);
      }
      ghost var h := View();
      var keys := byClient.Keys;
      while keys != {}
        invariant keys <= byClient.Keys && View() == h
        invariant forall k :: k in byClient && k !in keys ==> !Same(sess[byClient[k]].client.value, from)
        decreases keys
      {
        var k :| k in keys;
        assert KeyOk(h, k);
        var s := byClient[k];
        if Same(sess[s].client.value, from) {
          assert s in Indexed(h, from);
          byClient := byClient[from := s];
          return Some(s);
        }
        keys := keys - {k};
      }
      return None;
    }

    method PinLocked(s: SessId, i: nat, from: Addr)
      requires Valid() && i < |pending| && pending[i] == s && s < |sess|
      modifies this
      ensures View() == PinOf(old(View()), s, from)
    {
      WithoutCut(pending, i);
      sess := sess[s := sess[s].(client := Some(from))];
      byClient := byClient[from := s];
      pending := pending[..i] + pending[i + 1..];
    }

    /** Dispatch's walk over the pending sessions. */
    method Scan(from: Addr) returns (exactI: nat, exactN: nat, wildI: nat, wildN: nat)
      requires Valid()
      ensures Tally(pending, Exacts(View(), from), |pending|, exactN, exactI)
      ensures Tally(pending, Wilds(View(), from), |pending|, wildN, wildI)
    {
      hide Inv, Tally, Exacts, Wilds;
      PendingBelow(View());
      TallyStart(pending, Exacts(View(), from));
      TallyStart(pending, Wilds(View(), from));
      exactI, exactN, wildI, wildN := 0, 0, 0, 0;
      ghost var exacts, wilds := Exacts(View(), from), Wilds(View(), from);
      for i := 0 to |pending|
        invariant Tally(pending, exacts, i, exactN, exactI) && Tally(pending, wilds, i, wildN, wildI)
      {
        var p := sess[pending[i]];
        MatchMembers(View(), from, pending[i]);
        TallyStep(pending, exacts, i, exactN, exactI);
        TallyStep(pending, wilds, i, wildN, wildI);
        if p.declared.Some? {
          if Same(p.declared.value, from) {
            if p.peerIP.Some? {
              if p.peerIP.value != from.ip {
                continue;
              }
            }
            exactI := i;
            exactN := exactN + 1;
          }
          continue;
        }
        if PeerAllows(p, from) {
          wildI := i;
          wildN := wildN + 1;
        }
      }
    }

    method DispatchFrom(from: Addr) returns (r: Option<SessId>)
      requires Valid()
      modifies this
      ensures Valid() && (View(), r) == DispatchOf(old(View()), from)
    {
      hide Inv;
      ghost var h := View();
      DispatchKeeps(h, from);
      r := LookupPinned(from);
      if r.Some? {
        LookupDone(h, from, r.value);
        return r;
      }
      PendingBelow(h);
      var exactI, exactN, wildI, wildN := Scan(from);
      ghost var exacts, wilds := Exacts(h, from), Wilds(h, from);
      TallyDecides(pending, exacts, exactN, exactI);
      TallyDecides(pending, wilds, wildN, wildI);
      if exactN == 1 {
        r := Some(pending[exactI]);
        PinLocked(pending[exactI], exactI, from);
      } else if exactN > 1 {
        r := None;
      } else if wildN == 1 {
        r := Some(pending[wildI]);
        PinLocked(pending[wildI], wildI, from);
      } else {
        r := None;
      }
    }
  }

  lemma PendingBelow(h: Hub)
    requires Inv(h)
    ensures NoRepeats(h.pending) && forall i :: 0 <= i < |h.pending| ==> h.pending[i] < |h.sess|
  {
    assert forall i :: 0 <= i < |h.pending| ==> h.pending[i] in h.pending;
  }

  /** Whatever key the search met first, it is the session dispatch names. */
  lemma LookupDone(h: Hub, from: Addr, s: SessId)
    requires Inv(h)
    requires if from in h.byClient then s == h.byClient[from] else s in Indexed(h, from)
    ensures DispatchOf(h, from).1 == Some(s)
    ensures DispatchOf(h, from).0 == if from in h.byClient then h else h.(byClient := h.byClient[from := s])
  {
    if from !in h.byClient {
      IndexedUnique(h, from, s, DispatchOf(h, from).1.value);
    }
  }
}
