/** A chain of processes over bounded FIFO lanes, as a state machine. Every process loops over its own chunks:
    it receives a chunk lane by lane, computes it, then sends it lane by lane; the first process only sends and
    the last only receives. Any process with an enabled step may take it. */
module Chain {
  import opened Lanes

  /** n items cut into lanes by lo, room for cap(s, l) items on lane l between stations s and s + 1, and chunk[s]
      items per chunk at station s. */
  datatype Params = Params(n: nat, lo: seq<nat>, cap: (nat, nat) -> nat, chunk: seq<nat>)

  ghost predicate ParamsOk(p: Params) {
    && Cuts(p.lo, p.n) && (forall s, l :: p.cap(s, l) >= 1)
    && |p.chunk| >= 2 && forall s :: 0 <= s < |p.chunk| ==> p.chunk[s] >= 1
  }

  /** A process: its chunk starts at begin; recvd and sent are the next positions on every lane. */
  datatype Station<T> = Station(begin: nat, sending: bool, recvd: seq<nat>, sent: seq<nat>,
                                inBuf: seq<T>, outBuf: seq<T>)

  /** Queue q[s][l] is lane l of the link from station s to station s + 1. */
  datatype State<T> = State(st: seq<Station<T>>, q: seq<seq<seq<T>>>)

  datatype Step = SendItem(s: nat, l: nat) | RecvItem(s: nat, l: nat) | Turn(s: nat) | NextChunk(s: nat)

  /** End of the chunk that starts at begin. */
  function ChunkEnd(p: Params, s: nat, begin: nat): nat
    requires s < |p.chunk|
  {
    if begin + p.chunk[s] < p.n then begin + p.chunk[s] else p.n
  }

  // ---- steps ----

  ghost predicate Shaped<T>(p: Params, c: State<T>) {
    && |p.lo| >= 2 && |c.st| == |p.chunk| && |c.q| == |p.chunk| - 1
    && (forall s :: 0 <= s < |c.st| ==> ShapedStation(p, c.st[s]))
    && forall s :: 0 <= s < |c.q| ==> |c.q[s]| == |p.lo| - 1
  }

  ghost predicate ShapedStation<T>(p: Params, a: Station<T>) {
    |a.recvd| == |a.sent| == |p.lo| - 1 && |a.inBuf| == |a.outBuf| == p.n
  }

  /** Every lane of v is at the end of the chunk. */
  ghost predicate LanesAt(p: Params, v: seq<nat>, x: nat)
    requires |p.lo| >= 2 && |v| == |p.lo| - 1
  {
    forall l :: 0 <= l < |v| ==> v[l] == Clip(p.lo, l, x)
  }

  ghost predicate Enabled<T>(p: Params, c: State<T>, step: Step)
    requires Shaped(p, c)
  {
    step.s < |c.st| &&
    var s, a := step.s, c.st[step.s];
    var end := ChunkEnd(p, s, a.begin);
    match step
    case SendItem(_, l) =>
      l < |a.sent| && s + 1 < |c.st| && a.sending && a.sent[l] < Clip(p.lo, l, end) && a.sent[l] < p.n
      && |c.q[s][l]| < p.cap(s, l)
    case RecvItem(_, l) =>
      l < |a.recvd| && s > 0 && !a.sending && a.begin < p.n && a.recvd[l] < Clip(p.lo, l, end) && a.recvd[l] < p.n
      && |c.q[s - 1][l]| > 0
    case Turn(_) => !a.sending && a.begin < p.n && (s == 0 || LanesAt(p, a.recvd, end))
    case NextChunk(_) => a.sending && (s + 1 == |c.st| || LanesAt(p, a.sent, end))
  }

  /** f(s, i, v) is what station s makes of item i. */
  ghost function Computed<T>(p: Params, f: (nat, nat, T) -> T, s: nat, a: Station<T>, input: seq<T>): seq<T>
    requires s < |p.chunk| && ShapedStation(p, a) && |input| == p.n
  {
    seq(p.n, i requires 0 <= i < p.n =>
      if a.begin <= i < ChunkEnd(p, s, a.begin) then f(s, i, input[i]) else a.outBuf[i])
  }

  ghost function Apply<T>(p: Params, f: (nat, nat, T) -> T, src: seq<T>, c: State<T>, step: Step): State<T>
    requires Shaped(p, c) && |src| == p.n && Enabled(p, c, step)
  {
    var s, a := step.s, c.st[step.s];
    match step
    case SendItem(_, l) =>
      State(c.st[s := a.(sent := a.sent[l := a.sent[l] + 1])],
            c.q[s := c.q[s][l := c.q[s][l] + [a.outBuf[a.sent[l]]]]])
    case RecvItem(_, l) =>
      State(c.st[s := a.(recvd := a.recvd[l := a.recvd[l] + 1], inBuf := a.inBuf[a.recvd[l] := c.q[s - 1][l][0]])],
            c.q[s - 1 := c.q[s - 1][l := c.q[s - 1][l][1..]]])
    case Turn(_) =>
      State(c.st[s := a.(sending := true, outBuf := Computed(p, f, s, a, if s == 0 then src else a.inBuf))], c.q)
    case NextChunk(_) =>
      State(c.st[s := a.(sending := false, begin := ChunkEnd(p, s, a.begin))], c.q)
  }

  // ---- invariant ----

  /** What station s must produce for item i. */
  ghost function Val<T>(f: (nat, nat, T) -> T, src: seq<T>, s: nat, i: nat): T
    requires i < |src|
  {
    if s == 0 then f(0, i, src[i]) else f(s, i, Val(f, src, s - 1, i))
  }

  /** Lane l of a station is inside its chunk, on the right side for the phase it is in. */
  ghost predicate PositionOk<T>(p: Params, s: nat, a: Station<T>, l: nat)
    requires s < |p.chunk| && ShapedStation(p, a) && l + 1 < |p.lo|
  {
    var b, e := Clip(p.lo, l, a.begin), Clip(p.lo, l, ChunkEnd(p, s, a.begin));
    && a.recvd[l] <= p.n && a.sent[l] <= p.n
    && (s > 0 ==> if a.sending then a.recvd[l] == e else b <= a.recvd[l] <= e)
    && (s + 1 < |p.chunk| ==> if a.sending then b <= a.sent[l] <= e else a.sent[l] == b)
  }

  ghost predicate PositionsOk<T>(p: Params, s: nat, a: Station<T>)
    requires s < |p.chunk|
  {
    && |p.lo| >= 2 && ShapedStation(p, a) && a.begin <= p.n && (a.sending ==> a.begin < p.n)
    && forall l :: 0 <= l < |p.lo| - 1 ==> PositionOk(p, s, a, l)
  }

  /** Received items are what the station before produced; finished items are what this one must produce. */
  ghost predicate DataOk<T>(p: Params, f: (nat, nat, T) -> T, src: seq<T>, s: nat, a: Station<T>)
    requires s < |p.chunk| && |p.lo| >= 2 && ShapedStation(p, a) && |src| == p.n
  {
    && (s > 0 ==> forall l, i :: 0 <= l < |a.recvd| && p.lo[l] <= i < a.recvd[l] && i < p.n ==>
          a.inBuf[i] == Val(f, src, s - 1, i))
    && forall i :: 0 <= i < (if a.sending then ChunkEnd(p, s, a.begin) else a.begin) && i < p.n ==>
         a.outBuf[i] == Val(f, src, s, i)
  }

  /** A lane holds, in order, exactly the items sent and not yet received. */
  ghost predicate LaneOk<T>(p: Params, f: (nat, nat, T) -> T, src: seq<T>, s: nat, l: nat, sent: nat, recvd: nat,
                            q: seq<T>)
    requires |src| == p.n
  {
    recvd + |q| == sent <= p.n && |q| <= p.cap(s, l)
    && forall k :: 0 <= k < |q| ==> q[k] == Val(f, src, s, recvd + k)
  }

  ghost predicate LinkOk<T>(p: Params, f: (nat, nat, T) -> T, src: seq<T>, s: nat,
                            a: Station<T>, b: Station<T>, q: seq<seq<T>>)
    requires |src| == p.n && |p.lo| >= 2 && ShapedStation(p, a) && ShapedStation(p, b)
  {
    |q| == |p.lo| - 1 && forall l :: 0 <= l < |q| ==> LaneOk(p, f, src, s, l, a.sent[l], b.recvd[l], q[l])
  }

  ghost predicate Inv<T>(p: Params, f: (nat, nat, T) -> T, src: seq<T>, c: State<T>) {
    && ParamsOk(p) && |src| == p.n && |c.st| == |p.chunk| && |c.q| == |p.chunk| - 1
    && (forall s :: 0 <= s < |c.st| ==> PositionsOk(p, s, c.st[s]) && DataOk(p, f, src, s, c.st[s]))
    && forall s :: 0 <= s < |c.q| ==> LinkOk(p, f, src, s, c.st[s], c.st[s + 1], c.q[s])
  }

  lemma InvShaped<T>(p: Params, f: (nat, nat, T) -> T, src: seq<T>, c: State<T>)
    requires Inv(p, f, src, c)
    ensures Shaped(p, c)
  {
    forall s | 0 <= s < |c.q| ensures |c.q[s]| == |p.lo| - 1 {
      assert LinkOk(p, f, src, s, c.st[s], c.st[s + 1], c.q[s]);
    }
  }

  /** Nothing received or sent; the buffers hold anything. */
  ghost predicate Initial<T>(p: Params, c: State<T>)
    requires |p.lo| >= 2
  {
    && |c.st| == |p.chunk| && |c.q| == |p.chunk| - 1
    && (forall s :: 0 <= s < |c.st| ==>
          ShapedStation(p, c.st[s]) && c.st[s].begin == 0 && !c.st[s].sending
          && LanesAt(p, c.st[s].recvd, 0) && LanesAt(p, c.st[s].sent, 0))
    && forall s :: 0 <= s < |c.q| ==> |c.q[s]| == |p.lo| - 1 && forall l :: 0 <= l < |c.q[s]| ==> c.q[s][l] == []
  }

  lemma InitialInv<T>(p: Params, f: (nat, nat, T) -> T, src: seq<T>, c: State<T>)
    requires ParamsOk(p) && |src| == p.n && Initial(p, c)
    ensures Inv(p, f, src, c)
  {
    forall s | 0 <= s < |c.st| ensures PositionsOk(p, s, c.st[s]) && DataOk(p, f, src, s, c.st[s]) {
      forall l | 0 <= l < |p.lo| - 1 ensures PositionOk(p, s, c.st[s], l) {
        assert c.st[s].recvd[l] == Clip(p.lo, l, 0) && c.st[s].sent[l] == Clip(p.lo, l, 0);
      }
    }
    forall s | 0 <= s < |c.q| ensures LinkOk(p, f, src, s, c.st[s], c.st[s + 1], c.q[s]) {
      forall l | 0 <= l < |c.q[s]| ensures LaneOk(p, f, src, s, l, c.st[s].sent[l], c.st[s + 1].recvd[l], c.q[s][l]) {
        assert c.st[s].sent[l] == Clip(p.lo, l, 0) == c.st[s + 1].recvd[l];
        assert c.q[s][l] == [];
      }
    }
  }

  // ---- every step keeps the invariant ----

  /** A step touches one station and the links on its two sides. */
  lemma InvFrom<T>(p: Params, f: (nat, nat, T) -> T, src: seq<T>, c: State<T>, c': State<T>, s: nat)
    requires Inv(p, f, src, c) && s < |c.st| && |c'.st| == |c.st| && |c'.q| == |c.q|
    requires forall k :: 0 <= k < |c.st| && k != s ==> c'.st[k] == c.st[k]
    requires forall k :: 0 <= k < |c.q| && k != s && k + 1 != s ==> c'.q[k] == c.q[k]
    requires PositionsOk(p, s, c'.st[s]) && DataOk(p, f, src, s, c'.st[s])
    requires s < |c.q| ==> LinkOk(p, f, src, s, c'.st[s], c.st[s + 1], c'.q[s])
    requires s > 0 ==> LinkOk(p, f, src, s - 1, c.st[s - 1], c'.st[s], c'.q[s - 1])
    ensures Inv(p, f, src, c')
  {
    hide LinkOk, DataOk, PositionOk;
    forall k | 0 <= k < |c'.st| ensures PositionsOk(p, k, c'.st[k]) && DataOk(p, f, src, k, c'.st[k]) {
      if k != s { assert c'.st[k] == c.st[k]; }
    }
    forall k | 0 <= k < |c'.q| ensures LinkOk(p, f, src, k, c'.st[k], c'.st[k + 1], c'.q[k]) {
      if k != s && k + 1 != s {
        assert c'.st[k] == c.st[k] && c'.st[k + 1] == c.st[k + 1] && c'.q[k] == c.q[k];
        assert LinkOk(p, f, src, k, c.st[k], c.st[k + 1], c.q[k]);
      }
    }
  }

  lemma EndBounds(p: Params, s: nat, b: nat)
    requires ParamsOk(p) && s < |p.chunk| && b <= p.n
    ensures b <= ChunkEnd(p, s, b) <= p.n && (b < p.n ==> b < ChunkEnd(p, s, b))
  {
    assert p.chunk[s] >= 1;
  }

  lemma SendStation<T>(p: Params, f: (nat, nat, T) -> T, src: seq<T>, s: nat, a: Station<T>, l: nat)
    requires ParamsOk(p) && s + 1 < |p.chunk| && |src| == p.n && PositionsOk(p, s, a) && DataOk(p, f, src, s, a)
    requires l < |a.sent| && a.sending && a.sent[l] < Clip(p.lo, l, ChunkEnd(p, s, a.begin))
    ensures PositionsOk(p, s, a.(sent := a.sent[l := a.sent[l] + 1]))
    ensures DataOk(p, f, src, s, a.(sent := a.sent[l := a.sent[l] + 1]))
    ensures a.sent[l] < p.n && a.outBuf[a.sent[l]] == Val(f, src, s, a.sent[l])
  {
    var a' := a.(sent := a.sent[l := a.sent[l] + 1]);
    EndBounds(p, s, a.begin);
    ClipOrder(p.lo, p.n, l, a.begin, ChunkEnd(p, s, a.begin));
    assert PositionOk(p, s, a, l);
    assert a.sent[l] < ChunkEnd(p, s, a.begin);
    forall k | 0 <= k < |p.lo| - 1 ensures PositionOk(p, s, a', k) {
      assert PositionOk(p, s, a, k);
    }
    assert DataOk(p, f, src, s, a');
  }

  lemma SendLane<T>(p: Params, f: (nat, nat, T) -> T, src: seq<T>, s: nat, l: nat, sent: nat, recvd: nat, q: seq<T>,
                    v: T)
    requires |src| == p.n && LaneOk(p, f, src, s, l, sent, recvd, q) && |q| < p.cap(s, l)
    requires sent < p.n && v == Val(f, src, s, sent)
    ensures LaneOk(p, f, src, s, l, sent + 1, recvd, q + [v])
  {
  }

  lemma RecvLane<T>(p: Params, f: (nat, nat, T) -> T, src: seq<T>, s: nat, l: nat, sent: nat, recvd: nat, q: seq<T>)
    requires |src| == p.n && LaneOk(p, f, src, s, l, sent, recvd, q) && |q| > 0
    ensures LaneOk(p, f, src, s, l, sent, recvd + 1, q[1..]) && recvd < p.n && q[0] == Val(f, src, s, recvd)
  {
    forall k | 0 <= k < |q[1..]| ensures q[1..][k] == Val(f, src, s, recvd + 1 + k) {
      assert q[k + 1] == Val(f, src, s, recvd + (k + 1));
    }
  }

  lemma RecvStation<T>(p: Params, f: (nat, nat, T) -> T, src: seq<T>, s: nat, a: Station<T>, l: nat, v: T)
    requires ParamsOk(p) && 0 < s < |p.chunk| && |src| == p.n && PositionsOk(p, s, a) && DataOk(p, f, src, s, a)
    requires l < |a.recvd| && !a.sending && a.recvd[l] < Clip(p.lo, l, ChunkEnd(p, s, a.begin))
    requires a.recvd[l] < p.n && v == Val(f, src, s - 1, a.recvd[l])
    ensures PositionsOk(p, s, a.(recvd := a.recvd[l := a.recvd[l] + 1], inBuf := a.inBuf[a.recvd[l] := v]))
    ensures DataOk(p, f, src, s, a.(recvd := a.recvd[l := a.recvd[l] + 1], inBuf := a.inBuf[a.recvd[l] := v]))
  {
    var a' := a.(recvd := a.recvd[l := a.recvd[l] + 1], inBuf := a.inBuf[a.recvd[l] := v]);
    EndBounds(p, s, a.begin);
    ClipOrder(p.lo, p.n, l, a.begin, ChunkEnd(p, s, a.begin));
    forall k | 0 <= k < |p.lo| - 1 ensures PositionOk(p, s, a', k) {
      assert PositionOk(p, s, a, k);
    }
    forall k, i | 0 <= k < |a'.recvd| && p.lo[k] <= i < a'.recvd[k] && i < p.n
      ensures a'.inBuf[i] == Val(f, src, s - 1, i)
    {
      if i != a.recvd[l] { assert i < a.recvd[k]; }
    }
  }

  /** Once every lane is at the end of the chunk, every item of the chunk is in the buffer. */
  lemma ChunkComplete<T>(p: Params, f: (nat, nat, T) -> T, src: seq<T>, s: nat, a: Station<T>, i: nat)
    requires ParamsOk(p) && 0 < s < |p.chunk| && |src| == p.n && PositionsOk(p, s, a) && DataOk(p, f, src, s, a)
    requires LanesAt(p, a.recvd, ChunkEnd(p, s, a.begin)) && i < ChunkEnd(p, s, a.begin)
    ensures i < p.n && a.inBuf[i] == Val(f, src, s - 1, i)
  {
    EndBounds(p, s, a.begin);
    var l := FindCut(p.lo, i, |p.lo| - 1);
    assert a.recvd[l] == Clip(p.lo, l, ChunkEnd(p, s, a.begin));
  }

  lemma TurnStation<T>(p: Params, f: (nat, nat, T) -> T, src: seq<T>, s: nat, a: Station<T>)
    requires ParamsOk(p) && s < |p.chunk| && |src| == p.n && PositionsOk(p, s, a) && DataOk(p, f, src, s, a)
    requires !a.sending && a.begin < p.n && (s == 0 || LanesAt(p, a.recvd, ChunkEnd(p, s, a.begin)))
    ensures var a' := a.(sending := true, outBuf := Computed(p, f, s, a, if s == 0 then src else a.inBuf));
      PositionsOk(p, s, a') && DataOk(p, f, src, s, a')
  {
    var a' := a.(sending := true, outBuf := Computed(p, f, s, a, if s == 0 then src else a.inBuf));
    EndBounds(p, s, a.begin);
    forall l | 0 <= l < |p.lo| - 1 ensures PositionOk(p, s, a', l) {
      assert PositionOk(p, s, a, l);
      ClipOrder(p.lo, p.n, l, a.begin, ChunkEnd(p, s, a.begin));
    }
    forall i | 0 <= i < ChunkEnd(p, s, a.begin) && i < p.n ensures a'.outBuf[i] == Val(f, src, s, i) {
      if a.begin <= i && s > 0 { ChunkComplete(p, f, src, s, a, i); }
    }
  }

  lemma NextStation<T>(p: Params, f: (nat, nat, T) -> T, src: seq<T>, s: nat, a: Station<T>)
    requires ParamsOk(p) && s < |p.chunk| && |src| == p.n && PositionsOk(p, s, a) && DataOk(p, f, src, s, a)
    requires a.sending && (s + 1 == |p.chunk| || LanesAt(p, a.sent, ChunkEnd(p, s, a.begin)))
    ensures PositionsOk(p, s, a.(sending := false, begin := ChunkEnd(p, s, a.begin)))
    ensures DataOk(p, f, src, s, a.(sending := false, begin := ChunkEnd(p, s, a.begin)))
  {
    var end := ChunkEnd(p, s, a.begin);
    var a' := a.(sending := false, begin := end);
    EndBounds(p, s, a.begin);
    EndBounds(p, s, end);
    forall l | 0 <= l < |p.lo| - 1 ensures PositionOk(p, s, a', l) {
      assert PositionOk(p, s, a, l);
      ClipOrder(p.lo, p.n, l, end, ChunkEnd(p, s, end));
    }
  }

  /** What a step may change of a station as its neighbours see it. */
  lemma SameLink<T>(p: Params, f: (nat, nat, T) -> T, src: seq<T>, s: nat, a: Station<T>, b: Station<T>,
                    a': Station<T>, b': Station<T>, q: seq<seq<T>>)
    requires |src| == p.n && |p.lo| >= 2 && ShapedStation(p, a) && ShapedStation(p, b)
    requires ShapedStation(p, a') && ShapedStation(p, b') && a'.sent == a.sent && b'.recvd == b.recvd
    requires LinkOk(p, f, src, s, a, b, q)
    ensures LinkOk(p, f, src, s, a', b', q)
  {
  }

  lemma LinkUpdated<T>(p: Params, f: (nat, nat, T) -> T, src: seq<T>, s: nat, a: Station<T>, b: Station<T>,
                       q: seq<seq<T>>, a': Station<T>, b': Station<T>, q': seq<seq<T>>, l: nat)
    requires |src| == p.n && |p.lo| >= 2 && ShapedStation(p, a) && ShapedStation(p, b)
    requires ShapedStation(p, a') && ShapedStation(p, b') && LinkOk(p, f, src, s, a, b, q)
    requires l < |q| == |q'|
    requires forall k :: 0 <= k < |q| && k != l ==> q'[k] == q[k] && a'.sent[k] == a.sent[k] && b'.recvd[k] == b.recvd[k]
    requires LaneOk(p, f, src, s, l, a'.sent[l], b'.recvd[l], q'[l])
    ensures LinkOk(p, f, src, s, a', b', q')
  {
    forall k | 0 <= k < |q'| ensures LaneOk(p, f, src, s, k, a'.sent[k], b'.recvd[k], q'[k]) {
      if k != l { assert LaneOk(p, f, src, s, k, a.sent[k], b.recvd[k], q[k]); }
    }
  }

  lemma LinkOf<T>(p: Params, f: (nat, nat, T) -> T, src: seq<T>, c: State<T>, s: nat)
    requires Inv(p, f, src, c) && s < |c.q|
    ensures ShapedStation(p, c.st[s]) && ShapedStation(p, c.st[s + 1])
    ensures LinkOk(p, f, src, s, c.st[s], c.st[s + 1], c.q[s])
  {
  }

  lemma SendKeeps<T>(p: Params, f: (nat, nat, T) -> T, src: seq<T>, c: State<T>, s: nat, l: nat)
    requires Inv(p, f, src, c) && Shaped(p, c) && Enabled(p, c, SendItem(s, l))
    ensures Inv(p, f, src, Apply(p, f, src, c, SendItem(s, l)))
  {
    var a, c' := c.st[s], Apply(p, f, src, c, SendItem(s, l));
    SendStation(p, f, src, s, a, l);
    LinkOf(p, f, src, c, s);
    SendLane(p, f, src, s, l, a.sent[l], c.st[s + 1].recvd[l], c.q[s][l], a.outBuf[a.sent[l]]);
    LinkUpdated(p, f, src, s, a, c.st[s + 1], c.q[s], c'.st[s], c.st[s + 1], c'.q[s], l);
    if s > 0 {
      LinkOf(p, f, src, c, s - 1);
      SameLink(p, f, src, s - 1, c.st[s - 1], a, c.st[s - 1], c'.st[s], c.q[s - 1]);
    }
    InvFrom(p, f, src, c, c', s);
  }

  lemma RecvKeeps<T>(p: Params, f: (nat, nat, T) -> T, src: seq<T>, c: State<T>, s: nat, l: nat)
    requires Inv(p, f, src, c) && Shaped(p, c) && Enabled(p, c, RecvItem(s, l))
    ensures Inv(p, f, src, Apply(p, f, src, c, RecvItem(s, l)))
  {
    var a, c' := c.st[s], Apply(p, f, src, c, RecvItem(s, l));
    LinkOf(p, f, src, c, s - 1);
    RecvLane(p, f, src, s - 1, l, c.st[s - 1].sent[l], a.recvd[l], c.q[s - 1][l]);
    RecvStation(p, f, src, s, a, l, c.q[s - 1][l][0]);
    LinkUpdated(p, f, src, s - 1, c.st[s - 1], a, c.q[s - 1], c.st[s - 1], c'.st[s], c'.q[s - 1], l);
    if s < |c.q| {
      LinkOf(p, f, src, c, s);
      SameLink(p, f, src, s, a, c.st[s + 1], c'.st[s], c.st[s + 1], c.q[s]);
    }
    InvFrom(p, f, src, c, c', s);
  }

  lemma TurnKeeps<T>(p: Params, f: (nat, nat, T) -> T, src: seq<T>, c: State<T>, s: nat)
    requires Inv(p, f, src, c) && Shaped(p, c) && Enabled(p, c, Turn(s))
    ensures Inv(p, f, src, Apply(p, f, src, c, Turn(s)))
  {
    var c' := Apply(p, f, src, c, Turn(s));
    TurnStation(p, f, src, s, c.st[s]);
    LocalStep(p, f, src, c, c', s);
  }

  lemma NextKeeps<T>(p: Params, f: (nat, nat, T) -> T, src: seq<T>, c: State<T>, s: nat)
    requires Inv(p, f, src, c) && Shaped(p, c) && Enabled(p, c, NextChunk(s))
    ensures Inv(p, f, src, Apply(p, f, src, c, NextChunk(s)))
  {
    var c' := Apply(p, f, src, c, NextChunk(s));
    NextStation(p, f, src, s, c.st[s]);
    LocalStep(p, f, src, c, c', s);
  }

  /** A step that leaves positions and queues alone. */
  lemma LocalStep<T>(p: Params, f: (nat, nat, T) -> T, src: seq<T>, c: State<T>, c': State<T>, s: nat)
    requires Inv(p, f, src, c) && s < |c.st| && |c'.st| == |c.st| && c'.q == c.q
    requires forall k :: 0 <= k < |c.st| && k != s ==> c'.st[k] == c.st[k]
    requires PositionsOk(p, s, c'.st[s]) && DataOk(p, f, src, s, c'.st[s])
    requires c'.st[s].sent == c.st[s].sent && c'.st[s].recvd == c.st[s].recvd
    ensures Inv(p, f, src, c')
  {
    if s < |c.q| {
      LinkOf(p, f, src, c, s);
      SameLink(p, f, src, s, c.st[s], c.st[s + 1], c'.st[s], c.st[s + 1], c.q[s]);
    }
    if s > 0 {
      LinkOf(p, f, src, c, s - 1);
      SameLink(p, f, src, s - 1, c.st[s - 1], c.st[s], c.st[s - 1], c'.st[s], c.q[s - 1]);
    }
    InvFrom(p, f, src, c, c', s);
  }

  lemma StepKeeps<T>(p: Params, f: (nat, nat, T) -> T, src: seq<T>, c: State<T>, step: Step)
    requires Inv(p, f, src, c) && Shaped(p, c) && Enabled(p, c, step)
    ensures Inv(p, f, src, Apply(p, f, src, c, step))
  {
    match step
    case SendItem(s, l) => SendKeeps(p, f, src, c, s, l);
    case RecvItem(s, l) => RecvKeeps(p, f, src, c, s, l);
    case Turn(s) => TurnKeeps(p, f, src, c, s);
    case NextChunk(s) => NextKeeps(p, f, src, c, s);
  }
}
