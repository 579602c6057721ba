/** The pool of idle transports: a list in order of idle time, guarded by a lock and closed once. */
module Pool {
  import opened Bytes

  const MAX_IDLE := 10
  /** Fifteen seconds, in the nanoseconds of the clock. */
  const IDLE_AGE := 15_000_000_000
  const MAX_USES := 2

  type Id = nat

  /** reusableState of a lease. */
  datatype Reuse = New | Reusable | Spent

  datatype Idle = Idle(id: Id, used: int, uses: nat)

  predicate Expired(e: Idle, now: int) {
    now - e.used > IDLE_AGE
  }

  predicate Sorted(idle: seq<Idle>) {
    forall i, j :: 0 <= i < j < |idle| ==> idle[i].used <= idle[j].used
  }

  /** At most ten entries, each with a use left, in order of idle time, none from after `now`. */
  predicate WellKept(idle: seq<Idle>, now: int) {
    && |idle| <= MAX_IDLE
    && Sorted(idle)
    && (forall i :: 0 <= i < |idle| ==> idle[i].uses < MAX_USES && idle[i].used <= now)
  }

  /** The outcome of one pop: the entries it closes, the one it hands out and what it leaves. */
  datatype Popped = Popped(expired: seq<Idle>, taken: Option<Idle>, rest: seq<Idle>)

  function PopOf(idle: seq<Idle>, now: int): Popped {
    if idle == [] then Popped([], None, [])
    else if Expired(idle[0], now) then
      var p := PopOf(idle[1..], now);
      p.(expired := [idle[0]] + p.expired)
    else Popped([], Some(idle[0]), idle[1..])
  }

  /** A pop closes the expired entries at the front, takes the first unexpired one and leaves the rest;
      with no unexpired entry it empties the list. */
  lemma {:induction false} PopSplits(idle: seq<Idle>, now: int)
    ensures var p := PopOf(idle, now); var n := |p.expired|;
      && n <= |idle| && p.expired == idle[..n]
      && (forall i :: 0 <= i < n ==> Expired(idle[i], now))
      && (if n == |idle| then p.taken == None && p.rest == []
          else p.taken == Some(idle[n]) && !Expired(idle[n], now) && p.rest == idle[n + 1..])
    decreases |idle|
  {
    if idle != [] && Expired(idle[0], now) {
      PopSplits(idle[1..], now);
    }
  }

  /** On a list in order of idle time the entry taken is the oldest of those that have been idle for fifteen seconds
      at most, and no older one is left behind. */
  lemma PopTakesOldest(idle: seq<Idle>, now: int)
    requires forall i, j :: 0 <= i < j < |idle| ==> idle[i].used <= idle[j].used
    ensures var p := PopOf(idle, now);
      && (p.taken == None <==> forall i :: 0 <= i < |idle| ==> now - idle[i].used > 15_000_000_000)
      && (p.taken.Some? ==> now - p.taken.value.used <= 15_000_000_000)
      && (p.taken.Some? ==> forall e :: e in p.rest ==>
        p.taken.value.used <= e.used && now - e.used <= 15_000_000_000)
  {
    PopSplits(idle, now);
  }

  /** Only entries idle for more than fifteen seconds are closed. */
  lemma PopByAge(idle: seq<Idle>, now: int)
    ensures var p := PopOf(idle, now);
      && (p.taken.Some? ==> p.taken.value in idle && now - p.taken.value.used <= 15_000_000_000)
      && (forall e :: e in p.expired ==> e in idle && now - e.used > 15_000_000_000)
      && forall e :: e in idle ==> e in p.expired || p.taken == Some(e) || e in p.rest
  {
    PopSplits(idle, now);
    var p := PopOf(idle, now);
    var n := |p.expired|;
    forall e | e in idle
      ensures e in p.expired || p.taken == Some(e) || e in p.rest
    {
      var i :| 0 <= i < |idle| && idle[i] == e;
      if i < n {
        assert idle[..n][i] == e;
      } else if i > n {
        assert idle[n + 1..][i - n - 1] == e;
      }
    }
  }

  lemma PopKeeps(idle: seq<Idle>, now: int)
    requires WellKept(idle, now)
    ensures WellKept(PopOf(idle, now).rest, now)
    ensures PopOf(idle, now).taken.Some? ==> PopOf(idle, now).taken.value.uses < MAX_USES
  {
    PopSplits(idle, now);
  }

  lemma PopFirst(idle: seq<Idle>, now: int)
    requires idle != []
    ensures Expired(idle[0], now) ==>
      PopOf(idle, now) == PopOf(idle[1..], now).(expired := [idle[0]] + PopOf(idle[1..], now).expired)
    ensures !Expired(idle[0], now) ==> PopOf(idle, now) == Popped([], Some(idle[0]), idle[1..])
  {
  }

  lemma PopNothing(now: int)
    ensures PopOf([], now) == Popped([], None, [])
  {
  }

  /** Whether put accepts a transport with this many uses. */
  predicate Accepts(idle: seq<Idle>, closed: bool, uses: nat) {
    uses < MAX_USES && !closed && |idle| < MAX_IDLE
  }

  class IdlePool {
    var idle: seq<Idle>
    var closed: bool
    /** The transports this pool has closed itself, in order. */
    ghost var shut: seq<Id>
    /** No reading of the clock so far is later. */
    ghost var latest: int

    constructor ()
      ensures Valid() && idle == [] && !closed && shut == []
    {
      idle, closed, shut, latest := [], false, [], 0;
    }

    ghost predicate Valid()
      reads this
    {
      WellKept(idle, latest) && (closed ==> idle == [])
    }

    method Pop(now: int) returns (r: Option<Idle>)
      requires Valid() && latest <= now
      modifies this
      ensures Valid() && closed == old(closed) && latest == now
      ensures var p := PopOf(old(idle), now);
        r == p.taken && idle == p.rest && shut == old(shut) + IdsOf(p.expired)
      ensures r.Some? ==> now - r.value.used <= 15_000_000_000
    {
      hide PopOf;
      latest := now;
      ghost var was, shutWas := idle, shut;
      PopKeeps(idle, now);
      assert IdsOf([]) == [];
      ghost var gone: seq<Idle> := [];
      assert [] + PopOf(idle, now).expired == PopOf(idle, now).expired;
      while |idle| > 0
        invariant closed == old(closed) && latest == now && shut == shutWas + IdsOf(gone)
        invariant PopOf(was, now) ==
          Popped(gone + PopOf(idle, now).expired, PopOf(idle, now).taken, PopOf(idle, now).rest)
      {
        var first := idle[0];
        PopFirst(idle, now);
        idle := idle[1..];
        if now - first.used > IDLE_AGE {
          shut := shut + [first.id];
          Assoc(gone, [first], PopOf(idle, now).expired);
          gone := gone + [first];
          assert IdsOf(gone) == IdsOf(gone[..|gone| - 1]) + [first.id];
          continue;
        }
        assert gone + [] == gone;
        return Some(first);
      }
      PopNothing(now);
      assert gone + [] == gone;
      return None;
    }

    method Put(c: Id, uses: nat, now: int) returns (ok: bool)
      requires Valid() && latest <= now
      modifies this
      ensures Valid() && closed == old(closed) && shut == old(shut)
      ensures ok <==> Accepts(old(idle), old(closed), uses)
      ensures ok <==> uses < 2 && !old(closed) && |old(idle)| < 10
      ensures idle == if ok then old(idle) + [Idle(c, now, uses)] else old(idle)
    {
      if uses >= MAX_USES {
        return false;
      }
      latest := now;
      if closed || |idle| >= MAX_IDLE {
        return false;
      }
      idle := idle + [Idle(c, now, uses)];
      return true;
    }

    /** Everything idle is closed, each entry once and in order, and nothing is accepted again. */
    method Close()
      requires Valid()
      modifies this
      ensures Valid() && closed && idle == []
      ensures shut == old(shut) + IdsOf(old(idle))
    {
      closed := true;
      var items := idle;
      idle := [];
      for i := 0 to |items|
        invariant closed && idle == [] && latest == old(latest)
        invariant shut == old(shut) + IdsOf(items[..i])
      {
        assert IdsOf(items[..i + 1]) == IdsOf(items[..i]) + [items[i].id];
        shut := shut + [items[i].id];
      }
      assert items[..|items|] == items;
    }
  }

  lemma ClosedIsEmpty(p: IdlePool)
    requires p.Valid() && p.closed
    ensures p.idle == []
  {
  }

  function IdsOf(es: seq<Idle>): (r: seq<Id>)
    ensures |r| == |es|
  {
    seq(|es|, i requires 0 <= i < |es| => es[i].id)
  }
}
