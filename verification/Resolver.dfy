/** The resolver's cache, which never shares its storage with a caller, and its single-flight lookups, over
    every interleaving of callers, cancellations and completions. */
module Resolver {
  import opened Bytes

  /** Sixty seconds, in the nanoseconds of the clock. */
  const TTL := 60_000_000_000

  type Key = string

  // ---- the cache and its storage ----

  /** The contents of some buffers. */
  ghost function Values(bufs: seq<array<byte>>): (r: seq<Bytes>)
    reads bufs
    ensures |r| == |bufs|
  {
    seq(|bufs|, i requires 0 <= i < |bufs| reads bufs => bufs[i][..])
  }

  /** cloneIPs: equal contents in buffers of its own. */
  method CloneIPs(ips: seq<array<byte>>) returns (out: seq<array<byte>>)
    ensures |out| == |ips| && Values(out) == Values(ips)
    ensures forall b :: b in out ==> fresh(b)
  {
    out := [];
    for i := 0 to |ips|
      invariant |out| == i
      invariant forall j :: 0 <= j < i ==> fresh(out[j]) && out[j][..] == ips[j][..]
    {
      var ip := ips[i];
      var copy := new byte[ip.Length](k requires 0 <= k < ip.Length reads ip => ip[k]);
      assert copy[..] == ip[..];
      out := out + [copy];
    }
    assert Values(out) == Values(ips);
  }

  datatype Entry = Entry(ips: seq<array<byte>>, exp: int)

  class DnsCache {
    var entries: map<Key, Entry>
    /** The buffers the cache owns. */
    ghost var Repr: set<array<byte>>

    constructor ()
      ensures Valid() && Repr == {} && entries == map[]
    {
      entries, Repr := map[], {};
    }

    ghost predicate Valid()
      reads this
    {
      forall k :: k in entries ==> entries[k].ips != [] && forall b :: b in entries[k].ips ==> b in Repr
    }

    /** What is stored for a key and until when; it depends on the cache's own buffers only. */
    ghost function Stored(key: Key): Option<(seq<Bytes>, int)>
      requires Valid()
      reads this, Repr
    {
      if key in entries then Some((Values(entries[key].ips), entries[key].exp)) else None
    }

    method Get(key: Key, now: int) returns (out: Option<seq<array<byte>>>)
      requires Valid()
      ensures out.Some? <==> Stored(key).Some? && now <= Stored(key).value.1
      ensures out.Some? ==> Values(out.value) == Stored(key).value.0 && out.value != []
      ensures out.Some? ==> forall b :: b in out.value ==> fresh(b) && b !in Repr
    {
      if key !in entries || now > entries[key].exp {
        return None;
      }
      var copy := CloneIPs(entries[key].ips);
      out := Some(copy);
    }

    method Put(key: Key, ips: seq<array<byte>>, now: int)
      requires Valid()
      modifies this
      ensures Valid() && fresh(Repr - old(Repr)) && old(Repr) <= Repr
      ensures ips == [] ==> entries == old(entries)
      ensures ips != [] ==> Stored(key) == Some((old(Values(ips)), now + 60_000_000_000))
      ensures forall k :: k != key ==>
        (k in entries <==> k in old(entries)) && (k in entries ==> entries[k] == old(entries)[k])
    {
      if |ips| == 0 {
        return;
      }
      var stored := CloneIPs(ips);
      Repr := Repr + set b | b in stored;
      entries := entries[key := Entry(stored, now + TTL)];
    }
  }

  // ---- answers in flight, and the buffers callers hold ----

  type CallId = nat

  /** dnsSFCall: the answer is set once, before `done`. */
  datatype SFCall = SFCall(done: bool, ips: seq<array<byte>>, failed: bool)

  /** The cache and the calls, with every buffer that a caller has handed in or been given. */
  class Lookups {
    const cache: DnsCache
    var table: map<Key, CallId>
    var calls: seq<SFCall>
    /** The buffers the calls own, and the buffers callers hold. */
    ghost var held: set<array<byte>>
    ghost var lent: set<array<byte>>

    constructor ()
      ensures Valid() && fresh(cache) && table == map[] && calls == [] && lent == {}
    {
      cache := new DnsCache();
      table, calls, held, lent := map[], [], {}, {};
    }

    /** No caller holds a buffer of the cache or of a call. */
    ghost predicate Valid()
      reads this, cache
    {
      && cache.Valid()
      && (forall k :: k in table ==> table[k] < |calls|)
      && (forall c :: 0 <= c < |calls| ==> forall b :: b in calls[c].ips ==> b in held)
      && lent !! held && lent !! cache.Repr
    }

    /** What a call has found. */
    ghost function Found(c: CallId): seq<Bytes>
      requires c < |calls|
      reads this`calls, calls[c].ips
    {
      Values(calls[c].ips)
    }

    /** The cached answer, in buffers of the caller's own. */
    method Consult(key: Key, now: int) returns (out: Option<seq<array<byte>>>)
      requires Valid()
      modifies this`lent
      ensures Valid() && lent == old(lent) + (if out.Some? then Buffers(out.value) else {})
      ensures out.Some? <==> cache.Stored(key).Some? && now <= cache.Stored(key).value.1
      ensures out.Some? ==> Values(out.value) == cache.Stored(key).value.0
      ensures out.Some? ==> forall b :: b in out.value ==> fresh(b)
    {
      out := cache.Get(key, now);
      if out.Some? {
        lent := lent + Buffers(out.value);
      }
    }

    /** The call in flight for a key, or a new one that the caller leads. */
    method Join(key: Key) returns (c: CallId, leads: bool)
      requires Valid()
      modifies this`table, this`calls
      ensures Valid() && c < |calls| && key in table && table[key] == c
      ensures leads <==> key !in old(table)
      ensures if leads then table == old(table)[key := c] && calls == old(calls) + [SFCall(false, [], false)]
              else unchanged(this)
    {
      if key in table {
        return table[key], false;
      }
      c, leads := |calls|, true;
      calls := calls + [SFCall(false, [], false)];
      table := table[key := c];
    }

    /** A lookup ends: its answer is put into buffers of the call's own, and copied into the cache. */
    method Complete(c: CallId, key: Key, answer: seq<Bytes>, failed: bool, now: int)
      requires Valid() && c < |calls| && !calls[c].done && (failed <==> answer == [])
      modifies this`calls, this`held, cache
      ensures Valid() && |calls| == |old(calls)| && calls[c].done && calls[c].failed == failed && Found(c) == answer
      ensures forall d :: 0 <= d < |calls| && d != c ==> calls[d] == old(calls)[d] && Found(d) == old(Found(d))
      ensures answer != [] ==> cache.Stored(key) == Some((answer, now + TTL))
      ensures answer == [] ==> cache.entries == old(cache.entries)
      ensures fresh(held - old(held)) && old(held) <= held
    {
      var ips := Fresh(answer);
      cache.Put(key, ips, now);
      held := held + Buffers(ips);
      calls := calls[c := SFCall(true, ips, failed)];
    }

    /** The call leaves the table; those already waiting for it keep it. */
    method Leave(key: Key)
      requires Valid() && key in table
      modifies this`table
      ensures Valid() && table == old(table) - {key}
    {
      table := table - {key};
    }

    /** waitDNSCall once the call is done: a copy of its answer, in buffers that neither the call, the cache nor
        any other caller has. */
    method Wait(c: CallId) returns (ips: seq<array<byte>>, failed: bool)
      requires Valid() && c < |calls| && calls[c].done
      modifies this`lent
      ensures Valid() && lent == old(lent) + Buffers(ips)
      ensures Values(ips) == Found(c) == old(Found(c)) && failed == calls[c].failed
      ensures forall b :: b in ips ==> fresh(b) && b !in held && b !in cache.Repr && b !in old(lent)
    {
      ips, failed := [], calls[c].failed;
      if |calls[c].ips| > 0 {
        ips := CloneIPs(calls[c].ips);
      }
      lent := lent + Buffers(ips);
    }

    /** A caller hands in an answer of its own to be kept. */
    method Keep(key: Key, ips: seq<array<byte>>, now: int)
      requires Valid() && Buffers(ips) !! held && Buffers(ips) !! cache.Repr
      modifies this`lent, cache
      ensures Valid() && lent == old(lent) + Buffers(ips)
      ensures ips != [] ==> cache.Stored(key) == Some((old(Values(ips)), now + TTL))
      ensures ips == [] ==> cache.entries == old(cache.entries)
    {
      lent := lent + Buffers(ips);
      cache.Put(key, ips, now);
    }

    /** What holds no lent buffer does not notice writes to lent ones. */
    twostate lemma SameAnswers()
      requires old(Valid()) && unchanged(this) && unchanged(cache)
      requires forall b :: b in held + cache.Repr ==> unchanged(b)
      ensures Valid()
      ensures forall k :: cache.Stored(k) == old(cache.Stored(k))
      ensures forall c :: 0 <= c < |calls| ==> Found(c) == old(Found(c))
    {
      forall k | k in cache.entries
        ensures cache.Stored(k) == old(cache.Stored(k))
      {
        forall b | b in cache.entries[k].ips
          ensures b[..] == old(b[..])
        {
          assert b in held + cache.Repr;
        }
        SameValues(cache.entries[k].ips);
      }
      forall c | 0 <= c < |calls|
        ensures Found(c) == old(Found(c))
      {
        forall b | b in calls[c].ips
          ensures b[..] == old(b[..])
        {
          assert b in held + cache.Repr;
        }
        SameValues(calls[c].ips);
      }
    }

    /** A caller writes what it likes into buffers it holds: every answer in the cache and in a call is as it was. */
    method Scribble(bufs: seq<array<byte>>, junk: nat -> byte)
      requires Valid() && Buffers(bufs) <= lent
      modifies Buffers(bufs)
      ensures Valid()
      ensures forall k :: cache.Stored(k) == old(cache.Stored(k))
      ensures forall c :: 0 <= c < |calls| ==> Found(c) == old(Found(c))
      ensures forall b :: b in bufs ==> Overwritten(b, junk)
    {
      for j := 0 to |bufs|
        invariant forall m :: 0 <= m < j ==> Overwritten(bufs[m], junk)
      {
        for i := 0 to bufs[j].Length
          invariant forall m :: 0 <= m < j ==> Overwritten(bufs[m], junk)
          invariant forall k :: 0 <= k < i ==> bufs[j][k] == junk(k)
        {
          bufs[j][i] := junk(i);
        }
      }
      assert forall b :: b in held + cache.Repr ==> b !in Buffers(bufs);
      SameAnswers();
    }

    /** A caller that overwrites all it was given and asks again, the cache and the call, gets the same answers,
        whatever it wrote. */
    method AskScribbleAsk(key: Key, c: CallId, now: int, junk: nat -> byte)
      returns (first: Option<seq<array<byte>>>, again: Option<seq<array<byte>>>,
               waited: seq<array<byte>>, waitedAgain: seq<array<byte>>)
      requires Valid() && c < |calls| && calls[c].done
      modifies this`lent
      ensures Valid() && again.Some? == first.Some? && Values(waitedAgain) == old(Found(c))
      ensures again.Some? ==> old(cache.Stored(key)).Some? && Values(again.value) == old(cache.Stored(key)).value.0
      ensures forall b :: b in waited ==> Overwritten(b, junk)
    {
      hide DnsCache.Stored, Found;
      first := Consult(key, now);
      var failed;
      if first.Some? {
        Scribble(first.value, junk);
      }
      waited, failed := Wait(c);
      Scribble(waited, junk);
      again := Consult(key, now);
      label Asked:
      waitedAgain, failed := Wait(c);
    }
  }

  predicate Overwritten(b: array<byte>, junk: nat -> byte)
    reads b
  {
    forall i :: 0 <= i < b.Length ==> b[i] == junk(i)
  }

  ghost function Buffers(bufs: seq<array<byte>>): set<array<byte>> {
    set b | b in bufs
  }

  twostate lemma SameValues(bufs: seq<array<byte>>)
    requires forall b :: b in bufs ==> b[..] == old(b[..])
    ensures Values(bufs) == old(Values(bufs))
  {
    forall i | 0 <= i < |bufs|
      ensures Values(bufs)[i] == old(Values(bufs)[i])
    {
      assert bufs[i] in bufs;
    }
  }

  /** An answer in new buffers. */
  method Fresh(answer: seq<Bytes>) returns (ips: seq<array<byte>>)
    ensures Values(ips) == answer && forall b :: b in ips ==> fresh(b)
  {
    ips := [];
    for i := 0 to |answer|
      invariant |ips| == i
      invariant forall j :: 0 <= j < i ==> fresh(ips[j]) && ips[j][..] == answer[j]
    {
      var a := answer[i];
      var b := new byte[|a|](k requires 0 <= k < |a| => a[k]);
      assert b[..] == a;
      ips := ips + [b];
    }
    assert Values(ips) == answer;
  }

  // ---- single flight ----

  datatype Phase =
    Running | Kept(ips: seq<Bytes>) | Closed(ips: seq<Bytes>, failed: bool) | Removed(ips: seq<Bytes>, failed: bool)

  /** A lookup on its way: it may store an answer, then publishes its result, then leaves the table. */
  datatype Flight = Flight(key: Key, phase: Phase)

  datatype Outcome = Hit(cached: seq<Bytes>) | Answer(call: CallId, ips: seq<Bytes>, failed: bool) | Cancelled

  datatype Pc = AtCache | AtTable | Waiting(call: CallId) | Returned(out: Outcome)

  datatype Caller = Caller(key: Key, pc: Pc)

  /** One answer stored in the cache. */
  datatype Stored = StoredAt(key: Key, ips: seq<Bytes>, at: int)

  datatype State = State(now: int, cache: map<Key, (seq<Bytes>, int)>, table: map<Key, CallId>,
                         flights: seq<Flight>, callers: seq<Caller>, history: seq<Stored>)

  const START := State(0, map[], map[], [], [], [])

  datatype Action =
    | Tick(d: nat)
    | Call(key: Key)
    | Consult(i: nat)
    | Join(i: nat)
    | Keep(c: CallId, ips: seq<Bytes>)
    | Finish(c: CallId)
    | Remove(c: CallId)
    | Wake(i: nat)
    | Cancel(i: nat)

  predicate Flying(s: State, c: CallId) {
    c < |s.flights| && !s.flights[c].phase.Removed?
  }

  predicate Finished(f: Flight) {
    f.phase.Closed? || f.phase.Removed?
  }

  predicate Enabled(s: State, a: Action) {
    match a
    case Consult(i) => i < |s.callers| && s.callers[i].pc.AtCache?
    case Join(i) => i < |s.callers| && s.callers[i].pc.AtTable?
    case Keep(c, ips) => c < |s.flights| && s.flights[c].phase.Running? && ips != []
    case Finish(c) => c < |s.flights| && (s.flights[c].phase.Running? || s.flights[c].phase.Kept?)
    case Remove(c) => c < |s.flights| && s.flights[c].phase.Closed?
    case Wake(i) =>
      && i < |s.callers| && s.callers[i].pc.Waiting? && s.callers[i].pc.call < |s.flights|
      && Finished(s.flights[s.callers[i].pc.call])
    case Cancel(i) => i < |s.callers| && s.callers[i].pc.Waiting?
    case _ => true
  }

  /** dnsCacheGet. */
  function CacheGet(s: State, key: Key): Option<seq<Bytes>> {
    if key in s.cache && s.now <= s.cache[key].1 then Some(s.cache[key].0) else None
  }

  function Go(s: State, i: nat, pc: Pc): State
    requires i < |s.callers|
  {
    s.(callers := s.callers[i := s.callers[i].(pc := pc)])
  }

  function Fly(s: State, c: CallId, p: Phase): State
    requires c < |s.flights|
  {
    s.(flights := s.flights[c := s.flights[c].(phase := p)])
  }

  function Apply(s: State, a: Action): State
    requires Enabled(s, a)
  {
    match a
    case Tick(d) => s.(now := s.now + d)
    case Call(key) => s.(callers := s.callers + [Caller(key, AtCache)])
    case Consult(i) =>
      var hit := CacheGet(s, s.callers[i].key);
      Go(s, i, if hit.Some? then Returned(Hit(hit.value)) else AtTable)
    case Join(i) =>
      var key := s.callers[i].key;
      if key in s.table then Go(s, i, Waiting(s.table[key]))
      else
        Go(s, i, Waiting(|s.flights|)).(flights := s.flights + [Flight(key, Running)],
                                        table := s.table[key := |s.flights|])
    case Keep(c, ips) =>
      Fly(s, c, Kept(ips)).(cache := s.cache[s.flights[c].key := (ips, s.now + TTL)],
                            history := s.history + [StoredAt(s.flights[c].key, ips, s.now)])
    case Finish(c) =>
      var p := s.flights[c].phase;
      Fly(s, c, if p.Kept? then Closed(p.ips, false) else Closed([], true))
    case Remove(c) =>
      var p := s.flights[c].phase;
      Fly(s, c, Removed(p.ips, p.failed)).(table := s.table - {s.flights[c].key})
    case Wake(i) =>
      var c := s.callers[i].pc.call;
      var p := s.flights[c].phase;
      Go(s, i, Returned(Answer(c, p.ips, p.failed)))
    case Cancel(i) => Go(s, i, Returned(Cancelled))
  }

  predicate Runs(s: State, acts: seq<Action>, t: State)
    decreases |acts|
  {
    if acts == [] then s == t else Enabled(s, acts[0]) && Runs(Apply(s, acts[0]), acts[1..], t)
  }

  /** The last answer stored for a key. */
  function LastKept(h: seq<Stored>, key: Key): Option<Stored> {
    if h == [] then None
    else if h[|h| - 1].key == key then Some(h[|h| - 1])
    else LastKept(h[..|h| - 1], key)
  }

  ghost predicate TableOk(s: State) {
    && (forall k :: k in s.table ==> Flying(s, s.table[k]) && s.flights[s.table[k]].key == k)
    && (forall c: CallId :: Flying(s, c) ==> s.flights[c].key in s.table && s.table[s.flights[c].key] == c)
  }

  ghost predicate CacheOk(s: State) {
    forall k: Key ::
      match LastKept(s.history, k)
      case None => k !in s.cache
      case Some(e) => e.ips != [] && k in s.cache && s.cache[k] == (e.ips, e.at + TTL)
  }

  predicate CallerOk(s: State, i: nat)
    requires i < |s.callers|
  {
    match s.callers[i].pc
    case Waiting(c) => c < |s.flights| && s.flights[c].key == s.callers[i].key
    case Returned(Answer(c, ips, failed)) =>
      && c < |s.flights| && s.flights[c].key == s.callers[i].key && Finished(s.flights[c])
      && s.flights[c].phase.ips == ips && s.flights[c].phase.failed == failed
    case _ => true
  }

  /** A flight reports the answer it stored, or none. */
  predicate FlightOk(s: State, c: CallId)
    requires c < |s.flights|
  {
    var f := s.flights[c];
    f.phase.Running? || (if Finished(f) && f.phase.failed then f.phase.ips == []
                         else exists e :: e in s.history && e.key == f.key && e.ips == f.phase.ips)
  }

  ghost predicate Inv(s: State) {
    && TableOk(s)
    && CacheOk(s)
    && (forall i :: 0 <= i < |s.callers| ==> CallerOk(s, i))
    && (forall c :: 0 <= c < |s.flights| ==> FlightOk(s, c))
  }

  lemma LastAfter(h: seq<Stored>, e: Stored, key: Key)
    ensures LastKept(h + [e], key) == if e.key == key then Some(e) else LastKept(h, key)
  {
    assert (h + [e])[..|h|] == h;
  }

  lemma StepTable(s: State, a: Action)
    requires TableOk(s) && Enabled(s, a)
    ensures TableOk(Apply(s, a))
  {
    var t := Apply(s, a);
    forall c: CallId | Flying(t, c)
      ensures t.flights[c].key in t.table && t.table[t.flights[c].key] == c
    {
      assert c < |s.flights| ==> Flying(s, c);
    }
  }

  lemma StepCache(s: State, a: Action)
    requires CacheOk(s) && Enabled(s, a)
    ensures CacheOk(Apply(s, a))
  {
    if a.Keep? {
      forall k: Key {
        LastAfter(s.history, StoredAt(s.flights[a.c].key, a.ips, s.now), k);
      }
    }
  }

  lemma StepCallers(s: State, a: Action)
    requires TableOk(s) && (forall i :: 0 <= i < |s.callers| ==> CallerOk(s, i)) && Enabled(s, a)
    ensures forall i :: 0 <= i < |Apply(s, a).callers| ==> CallerOk(Apply(s, a), i)
  {
    var t := Apply(s, a);
    forall i | 0 <= i < |t.callers|
      ensures CallerOk(t, i)
    {
      if i < |s.callers| {
        assert CallerOk(s, i);
      }
    }
  }

  lemma StepFlights(s: State, a: Action)
    requires (forall c :: 0 <= c < |s.flights| ==> FlightOk(s, c)) && Enabled(s, a)
    ensures forall c :: 0 <= c < |Apply(s, a).flights| ==> FlightOk(Apply(s, a), c)
  {
    var t := Apply(s, a);
    forall c | 0 <= c < |t.flights|
      ensures FlightOk(t, c)
    {
      if c < |s.flights| {
        assert FlightOk(s, c);
      }
    }
  }

  lemma Step(s: State, a: Action)
    requires Inv(s) && Enabled(s, a)
    ensures Inv(Apply(s, a))
  {
    StepTable(s, a);
    StepCache(s, a);
    StepCallers(s, a);
    StepFlights(s, a);
    hide TableOk, CacheOk, CallerOk, FlightOk, Apply;
  }

  lemma {:induction false} RunKeepsInv(s: State, acts: seq<Action>, t: State)
    requires Inv(s) && Runs(s, acts, t)
    ensures Inv(t)
    decreases |acts|
  {
    hide Inv, Apply, Enabled;
    if acts != [] {
      Step(s, acts[0]);
      RunKeepsInv(Apply(s, acts[0]), acts[1..], t);
    }
  }

  /** In every interleaving at most one lookup per key is on its way. */
  lemma OneFlightPerKey(acts: seq<Action>, t: State, c: CallId, d: CallId)
    requires Runs(START, acts, t) && Flying(t, c) && Flying(t, d) && t.flights[c].key == t.flights[d].key
    ensures c == d
  {
    RunKeepsInv(START, acts, t);
  }

  /** A finishing lookup takes exactly its own entry out of the table. */
  lemma RemovesOwnEntry(acts: seq<Action>, t: State, c: CallId)
    requires Runs(START, acts, t) && Enabled(t, Remove(c))
    ensures var key := t.flights[c].key;
      && key in t.table && t.table[key] == c
      && Apply(t, Remove(c)).table == t.table - {key}
      && forall k :: k in t.table && t.table[k] == c ==> k == key
  {
    RunKeepsInv(START, acts, t);
    assert Flying(t, c);
  }

  /** Whoever waits for a lookup is a caller of its key and, if it sees it complete, gets that lookup's result,
      which is an answer stored in the cache or a failure with none. */
  lemma WaitersGetTheResult(acts: seq<Action>, t: State, i: nat)
    requires Runs(START, acts, t) && i < |t.callers| && t.callers[i].pc.Returned? && t.callers[i].pc.out.Answer?
    ensures var r := t.callers[i].pc.out;
      && r.call < |t.flights| && t.flights[r.call].key == t.callers[i].key && Finished(t.flights[r.call])
      && r.ips == t.flights[r.call].phase.ips && r.failed == t.flights[r.call].phase.failed
      && (if r.failed then r.ips == [] else exists e :: e in t.history && e.key == t.callers[i].key && e.ips == r.ips)
  {
    RunKeepsInv(START, acts, t);
    assert CallerOk(t, i);
    assert FlightOk(t, t.callers[i].pc.out.call);
  }

  /** The cache hits exactly when an answer was stored for the key within the last sixty seconds, and gives the
      latest one. */
  lemma HitsAreFresh(acts: seq<Action>, t: State, key: Key)
    requires Runs(START, acts, t)
    ensures var e := LastKept(t.history, key);
      CacheGet(t, key) == if e.Some? && t.now <= e.value.at + 60_000_000_000 then Some(e.value.ips) else None
    ensures CacheGet(t, key).Some? ==> CacheGet(t, key).value != []
  {
    RunKeepsInv(START, acts, t);
    assert LastKept(t.history, key) == None || LastKept(t.history, key).Some?;
  }

  lemma {:induction false} RunMore(s: State, acts: seq<Action>, t: State, a: Action)
    requires Runs(s, acts, t) && Enabled(t, a)
    ensures Runs(s, acts + [a], Apply(t, a))
    decreases |acts|
  {
    hide Apply, Enabled;
    if acts == [] {
      assert [] + [a] == [a] && [a][1..] == [];
      assert Runs(Apply(t, a), [], Apply(t, a));
    } else {
      assert (acts + [a])[1..] == acts[1..] + [a] && (acts + [a])[0] == acts[0];
      RunMore(Apply(s, acts[0]), acts[1..], t, a);
    }
  }

  lemma NoActions(s: State)
    ensures Runs(s, [], s)
  {
  }

  /** Two callers of one key join one lookup. */
  lemma TwoJoin(key: Key) returns (acts: seq<Action>, t: State)
    ensures Runs(START, acts, t)
    ensures t == State(0, map[], map[key := 0], [Flight(key, Running)],
                       [Caller(key, Waiting(0)), Caller(key, Waiting(0))], [])
  {
    hide Runs;
    NoActions(START);
    acts, t := [], START;
    RunMore(START, acts, t, Call(key));
    acts, t := acts + [Call(key)], Apply(t, Call(key));
    RunMore(START, acts, t, Call(key));
    acts, t := acts + [Call(key)], Apply(t, Call(key));
    RunMore(START, acts, t, Consult(0));
    acts, t := acts + [Consult(0)], Apply(t, Consult(0));
    RunMore(START, acts, t, Consult(1));
    acts, t := acts + [Consult(1)], Apply(t, Consult(1));
    RunMore(START, acts, t, Action.Join(0));
    acts, t := acts + [Action.Join(0)], Apply(t, Action.Join(0));
    RunMore(START, acts, t, Action.Join(1));
    acts, t := acts + [Action.Join(1)], Apply(t, Action.Join(1));
  }

  /** Both get its answer, and a third caller finds it in the cache. The bounds above are met. */
  lemma TwoShare(key: Key, ips: seq<Bytes>) returns (acts: seq<Action>, t: State)
    requires ips != []
    ensures Runs(START, acts, t) && |t.flights| == 1 && t.table == map[]
    ensures t.callers == [Caller(key, Returned(Answer(0, ips, false))), Caller(key, Returned(Answer(0, ips, false))),
                          Caller(key, Returned(Hit(ips)))]
  {
    hide Runs;
    acts, t := TwoJoin(key);
    RunMore(START, acts, t, Keep(0, ips));
    acts, t := acts + [Keep(0, ips)], Apply(t, Keep(0, ips));
    RunMore(START, acts, t, Finish(0));
    acts, t := acts + [Finish(0)], Apply(t, Finish(0));
    RunMore(START, acts, t, Wake(0));
    acts, t := acts + [Wake(0)], Apply(t, Wake(0));
    RunMore(START, acts, t, Wake(1));
    acts, t := acts + [Wake(1)], Apply(t, Wake(1));
    RunMore(START, acts, t, Action.Remove(0));
    acts, t := acts + [Action.Remove(0)], Apply(t, Action.Remove(0));
    RunMore(START, acts, t, Call(key));
    acts, t := acts + [Call(key)], Apply(t, Call(key));
    RunMore(START, acts, t, Consult(2));
    acts, t := acts + [Consult(2)], Apply(t, Consult(2));
  }
}
