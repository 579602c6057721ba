/** How a Snell v4 writer cuts a byte string into payloads: a limit that restarts after a pause and
    grows by one frame's worth with every chunk. */
module SnellPace {
  import opened Bytes
  import opened SnellFrame

  const FRAME_SIZE := 1460
  const FRAME_OVERHEAD := 39
  const FIRST_OVERHEAD := 55
  const INITIAL_PAD_MIN := 0x100
  const INITIAL_PAD_SPAN := 0x100
  /** Thirty seconds, in the nanoseconds of the clock. */
  const PAUSE := 30_000_000_000
  const STEP := FRAME_SIZE - FRAME_OVERHEAD

  /** Go's conversion of an int to uint16. */
  function Narrow(v: int): (r: nat)
    ensures r < 0x1_0000
  {
    v % 0x1_0000
  }

  /** `lastWrite`, `payLimit` and the two lengths fixed for the connection. */
  datatype Pace = Pace(last: Option<int>, limit: nat, idLen: nat, initPad: nat) {
    predicate Valid() {
      && idLen <= 40
      && INITIAL_PAD_MIN <= initPad < INITIAL_PAD_MIN + INITIAL_PAD_SPAN
      && (last.Some? ==> 854 <= limit <= MAX_PAYLOAD)
    }

    /** The limit nextPayloadLimit returns at time `now`. */
    function Limit(now: int): nat {
      if last.None? then Narrow(FRAME_SIZE - FIRST_OVERHEAD - idLen - initPad)
      else if now - last.value > PAUSE then Narrow(FRAME_SIZE - FRAME_OVERHEAD)
      else limit
    }

    /** The state nextPayloadLimit leaves behind. */
    function Next(now: int): Pace {
      var next := Limit(now) + FRAME_SIZE - FRAME_OVERHEAD;
      this.(last := Some(now), limit := Narrow(if next > MAX_PAYLOAD then MAX_PAYLOAD else next))
    }

    /** The limit after Write's own clamp. */
    function Room(now: int): (n: nat)
      ensures n > 0
    {
      if Limit(now) <= 0 || Limit(now) > MAX_PAYLOAD then MAX_PAYLOAD else Limit(now)
    }
  }

  /** No narrowing ever loses a bit: every limit of every run is in 854..16383, the clamp in Write never
      acts, and the state stays valid. */
  lemma LimitInRange(p: Pace, now: int)
    requires p.Valid()
    ensures 854 <= p.Limit(now) <= MAX_PAYLOAD && p.Room(now) == p.Limit(now)
    ensures p.Next(now).Valid()
    ensures p.last.None? ==> p.Limit(now) == FRAME_SIZE - FIRST_OVERHEAD - p.idLen - p.initPad
    ensures p.Next(now).limit == Min(p.Limit(now) + STEP, MAX_PAYLOAD)
  {
  }

  /** The same in numbers: the first limit leaves room in 1460 bytes for salt, identity, initial padding and 39 bytes
      of header and tags; after more than thirty seconds it is 1421; otherwise it has grown by 1421 since the last,
      up to 16383. The initial padding is 256 to 511 bytes. */
  lemma LimitNumbers(p: Pace, now: int, later: int)
    requires p.Valid()
    ensures 256 <= p.initPad <= 511
    ensures p.last.None? ==> p.Limit(now) + 16 + p.idLen + p.initPad + 39 == 1460
    ensures p.last.Some? && now - p.last.value > 30_000_000_000 ==> p.Limit(now) == 1421
    ensures later - now <= 30_000_000_000 ==> p.Next(now).Limit(later) == Min(p.Limit(now) + 1421, 16383)
  {
  }

  /** The pace after `k` limits have been handed out, reading the clock from tick `t`. */
  function After(p: Pace, clock: nat -> int, t: nat, k: nat): Pace {
    if k == 0 then p else var q := After(p, clock, t, k - 1); q.Next(clock(t + k - 1))
  }

  /** Within a burst (no gap above the pause) the k-th limit is the first one plus k steps, capped. */
  lemma {:induction false} BurstLimit(p: Pace, clock: nat -> int, t: nat, k: nat)
    requires p.Valid()
    requires forall i: nat :: t <= i < t + k ==> clock(i + 1) - clock(i) <= PAUSE
    ensures After(p, clock, t, k).Valid()
    ensures k > 0 ==> After(p, clock, t, k).last == Some(clock(t + k - 1))
    ensures After(p, clock, t, k).Limit(clock(t + k)) == Min(p.Limit(clock(t)) + STEP * k, MAX_PAYLOAD)
  {
    hide Pace.Limit, Pace.Next;
    LimitInRange(p, clock(t));
    if k > 0 {
      BurstLimit(p, clock, t, k - 1);
      var q := After(p, clock, t, k - 1);
      assert clock(t + k - 1 + 1) - clock(t + k - 1) <= PAUSE;
      LimitGrows(q, clock(t + k - 1), clock(t + k));
    }
  }

  lemma LimitGrows(p: Pace, now: int, later: int)
    requires p.Valid() && later - now <= PAUSE
    ensures p.Next(now).Valid() && p.Next(now).last == Some(now)
    ensures p.Next(now).Limit(later) == Min(p.Limit(now) + STEP, MAX_PAYLOAD)
  {
  }

  /** The payloads Write cuts `b` into. */
  function Pieces(p: Pace, clock: nat -> int, t: nat, b: Bytes): seq<Bytes>
    decreases |b|
  {
    if b == [] then []
    else
      var n := Min(p.Room(clock(t)), |b|);
      [b[..n]] + Pieces(p.Next(clock(t)), clock, t + 1, b[n..])
  }

  lemma NoPieces(p: Pace, clock: nat -> int, t: nat)
    ensures Pieces(p, clock, t, []) == []
  {
  }

  lemma NextPiece(p: Pace, clock: nat -> int, t: nat, b: Bytes, from: nat)
    requires from < |b|
    ensures var end := from + Min(p.Room(clock(t)), |b| - from);
      Pieces(p, clock, t, b[from..]) == [b[from..end]] + Pieces(p.Next(clock(t)), clock, t + 1, b[end..])
  {
    var n := Min(p.Room(clock(t)), |b| - from);
    assert b[from..][..n] == b[from..from + n] && b[from..][n..] == b[from + n..];
  }

  /** The pieces are the input again. */
  lemma {:induction false} PiecesCover(p: Pace, clock: nat -> int, t: nat, b: Bytes)
    ensures Flatten(Pieces(p, clock, t, b)) == b
    decreases |b|
  {
    hide Pace.Limit, Pace.Next;
    if b != [] {
      var n := Min(p.Room(clock(t)), |b|);
      PiecesCover(p.Next(clock(t)), clock, t + 1, b[n..]);
      assert b == b[..n] + b[n..];
    }
  }

  /** Every piece is non-empty and within its limit; every piece but the last fills it. */
  lemma {:induction false} PieceSize(p: Pace, clock: nat -> int, t: nat, b: Bytes, i: nat)
    requires p.Valid() && i < |Pieces(p, clock, t, b)|
    ensures 0 < |Pieces(p, clock, t, b)[i]| <= After(p, clock, t, i).Limit(clock(t + i)) <= MAX_PAYLOAD
    ensures i < |Pieces(p, clock, t, b)| - 1 ==>
      |Pieces(p, clock, t, b)[i]| == After(p, clock, t, i).Limit(clock(t + i))
    decreases |b|
  {
    hide Pace.Limit, Pace.Next;
    LimitInRange(p, clock(t));
    var n := Min(p.Room(clock(t)), |b|);
    var rest := Pieces(p.Next(clock(t)), clock, t + 1, b[n..]);
    if i > 0 {
      PieceSize(p.Next(clock(t)), clock, t + 1, b[n..], i - 1);
      AfterShift(p, clock, t, i - 1);
      assert Pieces(p, clock, t, b)[i] == rest[i - 1];
    }
  }

  lemma {:induction false} AfterShift(p: Pace, clock: nat -> int, t: nat, k: nat)
    ensures After(p, clock, t, k + 1) == After(p.Next(clock(t)), clock, t + 1, k)
  {
    if k > 0 {
      AfterShift(p, clock, t, k - 1);
    }
  }
}
