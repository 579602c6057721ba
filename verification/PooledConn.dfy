/** A lease on a pooled transport: closing it half-closes the stream and, when the peer has closed its half
    too, puts the transport back. Two goroutines may close it; here the calls come one after another, and
    every interleaving is in PoolRuns. */
module PooledConn {
  import opened Bytes
  import opened SnellFrame
  import opened SnellPadding
  import opened SnellLink
  import opened SnellConn
  import opened Pool

  class PooledConn {
    const conn: Conn
    const id: Id
    const pool: IdlePool
    const uses: nat
    var reuse: Reuse
    var halfCalled: bool
    var halfReusable: bool
    var halfFailed: bool
    var closeCalled: bool
    var closeFailed: bool
    /** Whether the transport has been closed. */
    var shut: bool

    constructor (conn: Conn, id: Id, pool: IdlePool, uses: nat)
      ensures this.conn == conn && this.id == id && this.pool == pool && this.uses == uses
      ensures reuse == New && !halfCalled && !closeCalled && !closeFailed && !shut
    {
      this.conn, this.id, this.pool, this.uses := conn, id, pool, uses;
      reuse, halfCalled, halfReusable, halfFailed := New, false, false, false;
      closeCalled, closeFailed, shut := false, false, false;
    }

    ghost predicate Valid()
      reads this, conn, conn.ReadParts(), conn.WriteParts(), pool
    {
      conn.Valid() && conn.w != null && pool.Valid()
    }

    /** From now on closing this lease may put its transport back, unless it is closing already. */
    method MarkReusable()
      modifies this`reuse
      ensures reuse == if old(reuse) == New then Reusable else old(reuse)
    {
      if reuse == New {
        reuse := Reusable;
      }
    }

    /** The first call closes a transport that may not be reused and half-closes one that may; later calls
        repeat its answer. `closeFails` is the outcome of closing. */
    method CloseWrite(draw: PadDraw, closeFails: bool) returns (reusable: bool, failed: bool)
      requires Valid() && draw.Valid()
      modifies this, conn`w, conn`tries, conn.WriteParts(), conn.sink
      ensures Valid() && halfCalled && closeCalled == old(closeCalled) && closeFailed == old(closeFailed)
      ensures (reusable, failed) == (halfReusable, halfFailed)
      ensures old(halfCalled) ==> unchanged(this) && unchanged(conn) && unchanged(conn.sink)
      ensures !old(halfCalled) ==> reuse == Spent && (reusable <==> old(reuse) == Reusable)
      ensures !old(halfCalled) && !reusable ==> shut && failed == closeFails && unchanged(conn) && unchanged(conn.sink)
      ensures !old(halfCalled) && reusable ==> shut == old(shut) && (old(conn.OutReady(draw)) ==> !failed)
      ensures Symbols(conn.Sent()) ==
        Symbols(old(conn.Sent())) + (if !old(halfCalled) && reusable && !failed then [Zero] else [])
      ensures conn.w == old(conn.w) && conn.AsLink() == old(conn.AsLink())
    {
      hide Symbols, WellKept, IdlePool.Valid, Conn.Valid, Conn.AsLink, Conn.Sent, Conn.OutReady;
      if halfCalled {
        Nothing(Symbols(conn.Sent()));
        return halfReusable, halfFailed;
      }
      halfCalled := true;
      var was := reuse;
      reuse := Spent;
      conn.Unmoved(draw);
      if was != Reusable {
        Nothing(Symbols(conn.Sent()));
        shut, halfReusable, halfFailed := true, false, closeFails;
        conn.Unmoved(draw);
      } else {
        var err := HalfClose(draw);
        label Sent:
        halfReusable, halfFailed := true, err;
        conn.Unmoved@Sent(draw);
      }
      return halfReusable, halfFailed;
    }

    method HalfClose(draw: PadDraw) returns (failed: bool)
      requires Valid() && draw.Valid()
      modifies conn`w, conn`tries, conn.WriteParts(), conn.sink
      ensures Valid() && conn.w == old(conn.w) && conn.AsLink() == old(conn.AsLink())
      ensures Symbols(conn.Sent()) == Symbols(old(conn.Sent())) + (if failed then [] else [Zero])
      ensures old(conn.OutReady(draw)) ==> !failed
    {
      hide Symbols, WellKept, IdlePool.Valid, Conn.Valid, Conn.AsLink, Conn.Sent, Conn.OutReady;
      var err := conn.HalfClose(draw);
      failed := err.Some?;
    }

    /** Close once our zero chunk is out. */
    method PutBack(deadlineFails: bool, closeFails: bool, now: int) returns (back: bool, failed: bool)
      requires Valid() && pool.latest <= now
      modifies this`shut, conn`reply, conn`peerClosed, pool
      ensures Valid() && conn.Sent() == old(conn.Sent())
      ensures back <==> old(conn.peerClosed) && !deadlineFails && Accepts(old(pool.idle), old(pool.closed), uses)
      ensures pool.idle == if back then old(pool.idle) + [Idle(id, now, uses)] else old(pool.idle)
      ensures back ==> conn.AsLink() == Link(false, false, old(conn.AsLink()).input) && shut == old(shut)
      ensures !back ==> shut
      ensures failed <==> !back && (closeFails || (old(conn.peerClosed) && deadlineFails))
    {
      hide WellKept, IdlePool.Valid, Conn.AsLink, Conn.Sent;
      if !conn.peerClosed {
        shut := true;
        return false, closeFails;
      }
      if deadlineFails {
        shut := true;
        return false, true;
      }
      conn.ResetReply();
      back := pool.Put(id, uses, now);
      if !back {
        shut := true;
      }
      failed := !back && closeFails;
    }

    /** The first call puts the transport back exactly when it may be reused, our zero chunk went out, the peer's
        was read, its deadline can be cleared and the pool accepts it; otherwise the transport is closed. A
        transport put back is between streams: the reply is awaited anew and no other input was consumed. Later
        calls only repeat the error of the first. */
    method Close(draw: PadDraw, deadlineFails: bool, closeFails: bool, now: int)
      returns (failed: bool, ghost back: bool)
      requires Valid() && draw.Valid()
      requires pool.latest <= now && (halfCalled && !halfReusable ==> shut)
      modifies this, conn`w, conn`tries, conn`reply, conn`peerClosed, conn.WriteParts(), conn.sink, pool
      ensures Valid() && closeCalled && failed == closeFailed
      ensures old(closeCalled) ==> !back && unchanged(this) && unchanged(conn) && unchanged(pool)
      ensures !old(closeCalled) ==> (back <==>
        halfReusable && !halfFailed && old(conn.peerClosed) && !deadlineFails
        && Accepts(old(pool.idle), old(pool.closed), uses))
      ensures !old(closeCalled) ==> (failed <==>
        halfFailed || (halfReusable && !back && (closeFails || (old(conn.peerClosed) && deadlineFails))))
      ensures pool.idle == if back then old(pool.idle) + [Idle(id, now, uses)] else old(pool.idle)
      ensures back ==> conn.AsLink() == Link(false, false, old(conn.AsLink()).input) && shut == old(shut)
      ensures !old(closeCalled) && !back ==> shut
      ensures back && !old(halfCalled) ==>
        old(reuse) == Reusable && Symbols(conn.Sent()) == Symbols(old(conn.Sent())) + [Zero]
    {
      hide Symbols, WellKept, IdlePool.Valid, Conn.Valid, Conn.AsLink, Conn.Sent, Conn.OutReady;
      if closeCalled {
        return closeFailed, false;
      }
      closeCalled := true;
      conn.Unmoved(draw);
      var reusable, halfErr := CloseWrite(draw, closeFails);
      label Halved:
      if halfErr {
        shut, closeFailed := true, true;
        conn.Unmoved@Halved(draw);
        return true, false;
      }
      if !reusable {
        closeFailed := false;
        conn.Unmoved@Halved(draw);
        return false, false;
      }
      var wasBack;
      wasBack, failed := PutBack(deadlineFails, closeFails, now);
      label Back:
      back, closeFailed := wasBack, failed;
      conn.Unmoved@Back(draw);
    }
  }

  lemma Nothing(s: seq<Sym>)
    ensures s + [] == s
  {
  }
}
