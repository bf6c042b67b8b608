/** Direct batched OLE: the receiver sends one chunk and reads its answers before it sends the next. The chain
    has three stations, the receiver's sending half, the sender, and the receiver's reading half; the receiver's
    program order is the gate between its two halves. */
module LockStep {
  import ModArith
  import opened Lanes
  import opened Chain
  import opened ChainRuns

  /** The receiver's two halves always share a chunk size; k is the receiver's, j the sender's. */
  ghost predicate Direct(p: Params, k: nat, j: nat) {
    ParamsOk(p) && p.chunk == [k, j, k]
  }

  ghost predicate Allowed<T>(p: Params, c: State<T>, step: Step)
    requires Shaped(p, c) && |c.st| == 3
  {
    && Enabled(p, c, step)
    && (step.Turn? && step.s == 0 ==> c.st[0].begin == c.st[2].begin)
    && (step.s == 2 ==> c.st[0].begin > c.st[2].begin)
  }

  // ---- the condition ----

  /** A chunk of station s begins or ends at x. */
  predicate Boundary(p: Params, s: nat, x: nat) {
    s < |p.chunk| && p.chunk[s] >= 1 && x <= p.n && (x == p.n || x % p.chunk[s] == 0)
  }

  /** Every chunk of the receiver ends where one of the sender ends. */
  predicate Nested(p: Params, k: nat, j: nat) {
    j >= 1 && (k >= p.n || k % j == 0)
  }

  /** On every lane the queue from station s has room for the lane's part of [b, x). */
  ghost predicate Fits(p: Params, s: nat, b: nat, x: nat) {
    forall l :: 0 <= l < |p.lo| - 1 ==> Clip(p.lo, l, x) - Clip(p.lo, l, b) <= p.cap(s, l)
  }

  /** While the receiver is still sending [b, e) nobody reads answers. Wherever the sender pauses in that range,
      either all answers up to there fit into their lanes, or all that is still to be sent fits into its lanes. */
  ghost predicate Roomy(p: Params)
    requires |p.chunk| == 3
  {
    forall b: nat, x: nat :: Boundary(p, 0, b) && Boundary(p, 1, x) && b < x <= ChunkEnd(p, 0, b) ==>
      Fits(p, 1, b, x) || Fits(p, 0, x, ChunkEnd(p, 0, b))
  }

  lemma ProductOrder(m: nat, n: nat, c: nat)
    ensures m <= n ==> m * c <= n * c
  {
  }

  lemma MultiplesApart(b: nat, x: nat, c: nat)
    requires c > 0 && b % c == 0 && x % c == 0 && b < x
    ensures b + c <= x
  {
    var m, n := b / c, x / c;
    assert b == m * c && x == n * c;
    ProductOrder(n, m, c);
    ProductOrder(m + 1, n, c);
    assert (m + 1) * c == m * c + c;
  }

  lemma MultipleAfter(b: nat, c: nat)
    requires c > 0 && b % c == 0
    ensures (b + c) % c == 0
  {
    assert b + c == (b / c + 1) * c + 0;
    ModArith.ModUnique(b + c, b / c + 1, 0, c);
  }

  lemma MultipleOfMultiple(x: nat, k: nat, j: nat)
    requires k > 0 && j > 0 && x % k == 0 && k % j == 0
    ensures x % j == 0
  {
    var m, n := x / k, k / j;
    assert x == m * k && k == n * j;
    assert x == (m * n) * j + 0;
    ModArith.ModUnique(x, m * n, 0, j);
  }

  /** A chunk that starts at a boundary ends at one, and no boundary lies inside it. */
  lemma ChunkBoundary(p: Params, s: nat, b: nat)
    requires ParamsOk(p) && Boundary(p, s, b)
    ensures Boundary(p, s, ChunkEnd(p, s, b))
    ensures forall x: nat :: Boundary(p, s, x) && b < x ==> ChunkEnd(p, s, b) <= x
  {
    if b % p.chunk[s] == 0 { MultipleAfter(b, p.chunk[s]); }
    forall x: nat | Boundary(p, s, x) && b < x ensures ChunkEnd(p, s, b) <= x {
      if x < p.n { MultiplesApart(b, x, p.chunk[s]); }
    }
  }

  lemma NestedEnd(p: Params, k: nat, j: nat, b: nat)
    requires Direct(p, k, j) && Nested(p, k, j) && Boundary(p, 0, b)
    ensures Boundary(p, 1, ChunkEnd(p, 0, b)) && Boundary(p, 2, b) && ChunkEnd(p, 2, b) == ChunkEnd(p, 0, b)
  {
    ChunkBoundary(p, 0, b);
    var e := ChunkEnd(p, 0, b);
    assert p.chunk[0] == k && p.chunk[1] == j && p.chunk[2] == k;
    if e < p.n { MultipleOfMultiple(e, k, j); }
  }

  /** Some lane carries part of a non-empty range. */
  lemma NonEmptyRange(p: Params, b: nat, e: nat) returns (l: nat)
    requires ParamsOk(p) && b < e <= p.n
    ensures l < |p.lo| - 1 && Clip(p.lo, l, b) < Clip(p.lo, l, e)
  {
    l := FindCut(p.lo, b, |p.lo| - 1);
  }

  /** Equal chunk sizes satisfy the condition whatever the capacities. */
  lemma EqualChunksOk(p: Params, k: nat)
    requires Direct(p, k, k)
    ensures Nested(p, k, k) && Roomy(p)
  {
    assert k % k == 0 by { MultipleAfter(0, k); }
    forall b: nat, x: nat | Boundary(p, 0, b) && Boundary(p, 1, x) && b < x <= ChunkEnd(p, 0, b)
      ensures Fits(p, 1, b, x) || Fits(p, 0, x, ChunkEnd(p, 0, b))
    {
      ChunkBoundary(p, 0, b);
      assert Boundary(p, 0, x);
      assert x == ChunkEnd(p, 0, b);
      assert forall l :: 0 <= l < |p.lo| - 1 ==> p.cap(0, l) >= 1;
    }
  }

  /** So do lanes that hold a whole chunk of the receiver: then nested chunk ends are all that is needed. */
  lemma WideLanesOk(p: Params, k: nat, j: nat)
    requires Direct(p, k, j) && forall s, l :: p.cap(s, l) >= k
    ensures Roomy(p)
  {
    forall b: nat, x: nat | Boundary(p, 0, b) && Boundary(p, 1, x) && b < x <= ChunkEnd(p, 0, b)
      ensures Fits(p, 1, b, x)
    {
      forall l | 0 <= l < |p.lo| - 1 ensures Clip(p.lo, l, x) - Clip(p.lo, l, b) <= p.cap(1, l) {
        assert p.cap(1, l) >= k;
        assert x - b <= p.chunk[0] == k;
      }
    }
  }

  /** Narrow lanes do not: chunks of 10 against chunks of 1 over a lane with room for one item. */
  lemma NarrowLaneFails(p: Params)
    requires p.n == 10 && p.lo == [0, 10] && p.chunk == [10, 1, 10] && p.cap == ((_, _) => 1)
    ensures Direct(p, 10, 1) && Nested(p, 10, 1) && !Roomy(p)
  {
    assert Boundary(p, 0, 0) && Boundary(p, 1, 2) && ChunkEnd(p, 0, 0) == 10;
    assert Clip(p.lo, 0, 2) - Clip(p.lo, 0, 0) == 2 && Clip(p.lo, 0, 10) - Clip(p.lo, 0, 2) == 8;
    assert p.cap(1, 0) == 1 && p.cap(0, 0) == 1;
    assert !Fits(p, 1, 0, 2) && !Fits(p, 0, 2, 10);
  }

  // ---- facts from the chain's invariant ----

  /** What the chain's invariant says of the three stations on one lane. */
  lemma LaneFacts<T>(p: Params, f: (nat, nat, T) -> T, src: seq<T>, c: State<T>, l: nat)
    requires Inv(p, f, src, c) && Shaped(p, c) && |c.st| == 3 && l < |p.lo| - 1
    ensures PositionOk(p, 0, c.st[0], l) && PositionOk(p, 1, c.st[1], l) && PositionOk(p, 2, c.st[2], l)
    ensures c.st[0].sent[l] == c.st[1].recvd[l] + |c.q[0][l]| && c.st[1].sent[l] == c.st[2].recvd[l] + |c.q[1][l]|
    ensures ParamsOk(p) && 1 <= p.cap(0, l) && 1 <= p.cap(1, l) && p.lo[l + 1] <= p.n
    ensures |c.q[0][l]| <= p.cap(0, l) && |c.q[1][l]| <= p.cap(1, l)
  {
    PositionAt(p, f, src, c, 0, l);
    PositionAt(p, f, src, c, 1, l);
    PositionAt(p, f, src, c, 2, l);
    LinkOf(p, f, src, c, 0);
    LinkOf(p, f, src, c, 1);
    assert LaneOk(p, f, src, 0, l, c.st[0].sent[l], c.st[1].recvd[l], c.q[0][l]);
    assert LaneOk(p, f, src, 1, l, c.st[1].sent[l], c.st[2].recvd[l], c.q[1][l]);
  }

  lemma Begins<T>(p: Params, f: (nat, nat, T) -> T, src: seq<T>, c: State<T>)
    requires Inv(p, f, src, c) && Shaped(p, c) && |c.st| == 3
    ensures forall s :: 0 <= s < 3 ==> c.st[s].begin <= p.n && (c.st[s].sending ==> c.st[s].begin < p.n)
    ensures ParamsOk(p)
  {
    forall s | 0 <= s < 3 ensures c.st[s].begin <= p.n && (c.st[s].sending ==> c.st[s].begin < p.n) {
      assert PositionsOk(p, s, c.st[s]);
    }
  }

  // ---- the receiver's two halves ----

  /** Its halves are in the same chunk, or it has sent the chunk and reads the answers. */
  ghost predicate ReceiverOk<T>(p: Params, c: State<T>)
    requires Shaped(p, c) && |c.st| == 3
  {
    var r, t := c.st[0], c.st[2];
    var e := ChunkEnd(p, 0, t.begin);
    && Boundary(p, 0, t.begin) && Boundary(p, 1, c.st[1].begin)
    && (if r.begin == t.begin then !t.sending && LanesAt(p, t.recvd, t.begin) else r.begin == e && !r.sending)
  }

  /** When the receiver leaves a chunk it has read all of it. */
  lemma AllRead<T>(p: Params, f: (nat, nat, T) -> T, src: seq<T>, c: State<T>)
    requires Inv(p, f, src, c) && Shaped(p, c) && |c.st| == 3 && |p.lo| >= 2
    ensures c.st[2].sending ==> LanesAt(p, c.st[2].recvd, ChunkEnd(p, 2, c.st[2].begin))
  {
    if c.st[2].sending {
      forall l | 0 <= l < |p.lo| - 1 ensures c.st[2].recvd[l] == Clip(p.lo, l, ChunkEnd(p, 2, c.st[2].begin)) {
        LaneFacts(p, f, src, c, l);
      }
    }
  }

  lemma ReceiverKept<T>(p: Params, k: nat, j: nat, f: (nat, nat, T) -> T, src: seq<T>, c: State<T>, step: Step)
    requires Direct(p, k, j) && Inv(p, f, src, c) && Shaped(p, c) && ReceiverOk(p, c) && Allowed(p, c, step)
    ensures var c' := Apply(p, f, src, c, step); Shaped(p, c') && ReceiverOk(p, c')
  {
    var c' := Apply(p, f, src, c, step);
    StepKeeps(p, f, src, c, step);
    InvShaped(p, f, src, c');
    Begins(p, f, src, c);
    EndBounds(p, 0, c.st[2].begin);
    ChunkBoundary(p, 0, c.st[2].begin);
    ChunkBoundary(p, 1, c.st[1].begin);
    AllRead(p, f, src, c);
    assert p.chunk[0] == p.chunk[2];
    hide Inv, PositionOk, Clip, Boundary;
  }

  // ---- nested chunks: where the sender is ----

  /** The sender is still leaving the chunk before, all of whose answers it has sent. */
  ghost predicate Late<T>(p: Params, c: State<T>)
    requires Shaped(p, c) && |c.st| == 3
  {
    ChunkEnd(p, 1, c.st[1].begin) == c.st[2].begin && c.st[1].sending && LanesAt(p, c.st[1].sent, c.st[2].begin)
  }

  /** The sender is inside the receiver's chunk, through with it, or late. */
  ghost predicate SenderOk<T>(p: Params, c: State<T>)
    requires Shaped(p, c) && |c.st| == 3
  {
    var s, b := c.st[1], c.st[2].begin;
    var e := ChunkEnd(p, 0, b);
    b <= s.begin < e || (s.begin == e && !s.sending) || Late(p, c)
  }

  ghost predicate Aligned<T>(p: Params, c: State<T>)
    requires Shaped(p, c) && |c.st| == 3
  {
    ReceiverOk(p, c) && SenderOk(p, c)
  }

  /** The sender cannot turn while it is ahead of the receiver. */
  lemma AheadWaits<T>(p: Params, k: nat, j: nat, f: (nat, nat, T) -> T, src: seq<T>, c: State<T>)
    requires Direct(p, k, j) && Inv(p, f, src, c) && Shaped(p, c) && Aligned(p, c) && Allowed(p, c, Turn(1))
    ensures c.st[2].begin <= c.st[1].begin < ChunkEnd(p, 0, c.st[2].begin)
  {
    var b := c.st[1].begin;
    Begins(p, f, src, c);
    EndBounds(p, 0, c.st[2].begin);
    if b == ChunkEnd(p, 0, c.st[2].begin) {
      EndBounds(p, 1, b);
      var l := NonEmptyRange(p, b, ChunkEnd(p, 1, b));
      LaneFacts(p, f, src, c, l);
      assert false;
    }
  }

  /** When the receiver leaves a chunk, the sender has sent all of it. */
  lemma LeavingChunk<T>(p: Params, k: nat, j: nat, f: (nat, nat, T) -> T, src: seq<T>, c: State<T>)
    requires Direct(p, k, j) && Nested(p, k, j) && Inv(p, f, src, c) && Shaped(p, c) && Aligned(p, c)
    requires Allowed(p, c, NextChunk(2))
    ensures var s, e := c.st[1], ChunkEnd(p, 0, c.st[2].begin);
      (s.begin == e && !s.sending) || (ChunkEnd(p, 1, s.begin) == e && s.sending && LanesAt(p, s.sent, e))
  {
    var s, b, e := c.st[1], c.st[2].begin, ChunkEnd(p, 0, c.st[2].begin);
    Begins(p, f, src, c);
    EndBounds(p, 0, b);
    EndBounds(p, 1, s.begin);
    NestedEnd(p, k, j, b);
    ChunkBoundary(p, 1, s.begin);
    var through := if s.sending then ChunkEnd(p, 1, s.begin) else s.begin;
    if through < e {
      var l := NonEmptyRange(p, through, e);
      ClipOrder(p.lo, p.n, l, s.begin, through);
      LaneFacts(p, f, src, c, l);
      assert false;
    }
    if s.begin < e {
      forall l | 0 <= l < |p.lo| - 1 ensures s.sent[l] == Clip(p.lo, l, e) {
        LaneFacts(p, f, src, c, l);
      }
    }
  }

  /** A sender that is still leaving the previous chunk has nothing left to send. */
  lemma NotLate<T>(p: Params, k: nat, j: nat, f: (nat, nat, T) -> T, src: seq<T>, c: State<T>, l: nat)
    requires Direct(p, k, j) && Shaped(p, c) && |c.st| == 3 && Allowed(p, c, SendItem(1, l))
    ensures !Late(p, c)
  {
  }

  lemma AlignedKept<T>(p: Params, k: nat, j: nat, f: (nat, nat, T) -> T, src: seq<T>, c: State<T>, step: Step)
    requires Direct(p, k, j) && Nested(p, k, j) && Inv(p, f, src, c) && Shaped(p, c) && Aligned(p, c)
    requires Allowed(p, c, step)
    ensures var c' := Apply(p, f, src, c, step); Shaped(p, c') && Aligned(p, c')
  {
    ReceiverKept(p, k, j, f, src, c, step);
    Begins(p, f, src, c);
    EndBounds(p, 0, c.st[2].begin);
    EndBounds(p, 0, ChunkEnd(p, 0, c.st[2].begin));
    EndBounds(p, 1, c.st[1].begin);
    NestedEnd(p, k, j, c.st[2].begin);
    ChunkBoundary(p, 1, c.st[1].begin);
    hide Inv, PositionOk, Clip, Boundary;
    match step
    case SendItem(s, l) =>
      if s == 1 { NotLate(p, k, j, f, src, c, l); }
    case RecvItem(s, l) =>
    case Turn(s) =>
      if s == 1 { AheadWaits(p, k, j, f, src, c); }
    case NextChunk(s) =>
      if s == 2 { LeavingChunk(p, k, j, f, src, c); }
  }

  // ---- deadlock freedom ----

  /** Nested chunks and room enough: as long as something is unfinished, some step is allowed. */
  lemma DirectProgress<T>(p: Params, k: nat, j: nat, f: (nat, nat, T) -> T, src: seq<T>, c: State<T>)
    returns (step: Step)
    requires Direct(p, k, j) && Nested(p, k, j) && Roomy(p)
    requires Inv(p, f, src, c) && Shaped(p, c) && Aligned(p, c) && !Final(p, c)
    ensures Allowed(p, c, step)
  {
    var r, s, t := c.st[0], c.st[1], c.st[2];
    var e := ChunkEnd(p, 0, t.begin);
    Begins(p, f, src, c);
    EndBounds(p, 0, t.begin);
    EndBounds(p, 1, s.begin);
    NestedEnd(p, k, j, t.begin);
    if Late(p, c) {
      step := NextChunk(1);
    } else if t.begin == p.n {
      assert Finished(p, r) && Finished(p, s) && Finished(p, t);
      assert false;
    } else if r.begin == t.begin && !r.sending {
      step := Turn(0);
    } else if r.begin == t.begin && LanesAt(p, r.sent, e) {
      step := NextChunk(0);
    } else if r.begin == t.begin {
      step := FirstHalf(p, k, j, f, src, c);
    } else if t.sending {
      step := NextChunk(2);
    } else if s.begin < e && !s.sending {
      step := SenderReads(p, k, j, f, src, c);
    } else if s.begin < e {
      step := SenderWrites(p, k, j, f, src, c);
    } else {
      step := SecondHalf(p, k, j, f, src, c);
    }
  }

  /** The sender waits for items of its chunk: one is in a queue, or the receiver can send one. */
  lemma SenderReads<T>(p: Params, k: nat, j: nat, f: (nat, nat, T) -> T, src: seq<T>, c: State<T>)
    returns (step: Step)
    requires Direct(p, k, j) && Nested(p, k, j) && Inv(p, f, src, c) && Shaped(p, c) && ReceiverOk(p, c)
    requires c.st[2].begin <= c.st[1].begin < ChunkEnd(p, 0, c.st[2].begin) && !c.st[1].sending
    requires c.st[0].begin == c.st[2].begin ==> c.st[0].sending
    ensures Allowed(p, c, step)
  {
    var r, s := c.st[0], c.st[1];
    var e := ChunkEnd(p, 0, c.st[2].begin);
    NestedEnd(p, k, j, c.st[2].begin);
    ChunkBoundary(p, 1, s.begin);
    Begins(p, f, src, c);
    hide Inv, Boundary;
    if LanesAt(p, s.recvd, ChunkEnd(p, 1, s.begin)) {
      step := Turn(1);
    } else {
      var l :| 0 <= l < |s.recvd| && s.recvd[l] != Clip(p.lo, l, ChunkEnd(p, 1, s.begin));
      LaneFacts(p, f, src, c, l);
      ClipOrder(p.lo, p.n, l, ChunkEnd(p, 1, s.begin), e);
      step := if |c.q[0][l]| > 0 then RecvItem(1, l) else SendItem(0, l);
    }
  }

  /** The receiver is still sending its chunk. */
  lemma FirstHalf<T>(p: Params, k: nat, j: nat, f: (nat, nat, T) -> T, src: seq<T>, c: State<T>) returns (step: Step)
    requires Direct(p, k, j) && Nested(p, k, j) && Roomy(p)
    requires Inv(p, f, src, c) && Shaped(p, c) && Aligned(p, c) && !Late(p, c)
    requires c.st[0].begin == c.st[2].begin < p.n && c.st[0].sending
    requires !LanesAt(p, c.st[0].sent, ChunkEnd(p, 0, c.st[2].begin))
    ensures Allowed(p, c, step)
  {
    var r, s, b := c.st[0], c.st[1], c.st[2].begin;
    var e := ChunkEnd(p, 0, b);
    var l :| 0 <= l < |r.sent| && r.sent[l] != Clip(p.lo, l, e);
    LaneFacts(p, f, src, c, l);
    Begins(p, f, src, c);
    EndBounds(p, 0, b);
    hide Inv, Boundary, Roomy;
    if |c.q[0][l]| < p.cap(0, l) {
      step := SendItem(0, l);
    } else {
      // the lane is full, so the sender is inside the chunk
      assert s.begin < e;
      if s.sending {
        step := SenderPauses(p, k, j, f, src, c, l);
      } else {
        step := SenderReads(p, k, j, f, src, c);
      }
    }
  }

  /** The sender returns answers while the receiver is still sending: room on every lane of one direction. */
  lemma SenderPauses<T>(p: Params, k: nat, j: nat, f: (nat, nat, T) -> T, src: seq<T>, c: State<T>, l: nat)
    returns (step: Step)
    requires Direct(p, k, j) && Nested(p, k, j) && Roomy(p) && Inv(p, f, src, c) && Shaped(p, c) && ReceiverOk(p, c)
    requires c.st[0].begin == c.st[2].begin <= c.st[1].begin < ChunkEnd(p, 0, c.st[2].begin)
    requires c.st[0].sending && c.st[1].sending && l < |p.lo| - 1
    requires c.st[0].sent[l] < Clip(p.lo, l, ChunkEnd(p, 0, c.st[2].begin)) && |c.q[0][l]| >= p.cap(0, l)
    ensures Allowed(p, c, step)
  {
    var s, b := c.st[1], c.st[2].begin;
    var e, x := ChunkEnd(p, 0, b), ChunkEnd(p, 1, s.begin);
    NestedEnd(p, k, j, b);
    ChunkBoundary(p, 1, s.begin);
    Begins(p, f, src, c);
    EndBounds(p, 1, s.begin);
    RoomyAt(p, b, x);
    hide Inv, Boundary, Roomy;
    if LanesAt(p, s.sent, x) {
      step := NextChunk(1);
    } else {
      var m :| 0 <= m < |s.sent| && s.sent[m] != Clip(p.lo, m, x);
      LaneFacts(p, f, src, c, m);
      LaneFacts(p, f, src, c, l);
      step := SendItem(1, m);
      assert Clip(p.lo, l, e) - Clip(p.lo, l, x) > p.cap(0, l);
      assert Fits(p, 1, b, x);
      assert Clip(p.lo, m, x) - Clip(p.lo, m, b) <= p.cap(1, m);
      assert c.st[2].recvd[m] == Clip(p.lo, m, b);
    }
  }

  lemma RoomyAt(p: Params, b: nat, x: nat)
    requires |p.chunk| == 3 && Roomy(p)
    requires Boundary(p, 0, b) && Boundary(p, 1, x) && b < x <= ChunkEnd(p, 0, b)
    ensures Fits(p, 1, b, x) || Fits(p, 0, x, ChunkEnd(p, 0, b))
  {
  }

  /** The receiver reads, the sender still returns answers. */
  lemma SenderWrites<T>(p: Params, k: nat, j: nat, f: (nat, nat, T) -> T, src: seq<T>, c: State<T>)
    returns (step: Step)
    requires Direct(p, k, j) && Nested(p, k, j) && Inv(p, f, src, c) && Shaped(p, c) && ReceiverOk(p, c)
    requires c.st[0].begin != c.st[2].begin <= c.st[1].begin < ChunkEnd(p, 0, c.st[2].begin)
    requires c.st[1].sending && !c.st[2].sending
    ensures Allowed(p, c, step)
  {
    var s, b := c.st[1], c.st[2].begin;
    var e, x := ChunkEnd(p, 0, b), ChunkEnd(p, 1, s.begin);
    NestedEnd(p, k, j, b);
    ChunkBoundary(p, 1, s.begin);
    Begins(p, f, src, c);
    EndBounds(p, 0, b);
    hide Inv, Boundary;
    if LanesAt(p, s.sent, x) {
      step := NextChunk(1);
    } else {
      var l :| 0 <= l < |s.sent| && s.sent[l] != Clip(p.lo, l, x);
      LaneFacts(p, f, src, c, l);
      ClipOrder(p.lo, p.n, l, x, e);
      step := if |c.q[1][l]| < p.cap(1, l) then SendItem(1, l) else RecvItem(2, l);
    }
  }

  /** The receiver reads the last answers to its chunk. */
  lemma SecondHalf<T>(p: Params, k: nat, j: nat, f: (nat, nat, T) -> T, src: seq<T>, c: State<T>) returns (step: Step)
    requires Direct(p, k, j) && Nested(p, k, j) && Inv(p, f, src, c) && Shaped(p, c) && ReceiverOk(p, c)
    requires c.st[0].begin != c.st[2].begin < p.n && c.st[1].begin == ChunkEnd(p, 0, c.st[2].begin)
    requires !c.st[1].sending && !c.st[2].sending
    ensures Allowed(p, c, step)
  {
    var t, e := c.st[2], ChunkEnd(p, 0, c.st[2].begin);
    NestedEnd(p, k, j, t.begin);
    Begins(p, f, src, c);
    EndBounds(p, 2, t.begin);
    hide Inv, Boundary;
    if LanesAt(p, t.recvd, e) {
      step := Turn(2);
    } else {
      var l :| 0 <= l < |t.recvd| && t.recvd[l] != Clip(p.lo, l, e);
      LaneFacts(p, f, src, c, l);
      step := RecvItem(2, l);
    }
  }
}
