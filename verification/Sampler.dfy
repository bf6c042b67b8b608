/** The benchmark set sampler: rejection sampling that falls back to a linear scan after 64 rejections, and the two
    sets it builds. It terminates for every stream of draws by a pigeonhole argument. */
module Sampler {
  import opened Poly
  import opened PolyMul
  import opened Results
  import opened Psi

  const MAX_REJECTED: nat := 64

  function Elements(s: seq<int>): set<int> {
    set x | x in s
  }

  lemma {:induction false} CountDistinct(s: seq<int>)
    requires NoDuplicates(s)
    ensures |Elements(s)| == |s|
    decreases |s|
  {
    if |s| > 0 {
      var t, x := s[..|s| - 1], s[|s| - 1];
      CountDistinct(t);
      assert s == t + [x];
      assert x !in t;
      assert Elements(s) == Elements(t) + {x};
    }
  }

  /** The numbers 1, ..., n - 1. */
  function Range(n: nat): set<int> {
    if n <= 1 then {} else Range(n - 1) + {n - 1}
  }

  lemma {:induction false} RangeSize(n: nat)
    requires n >= 1
    ensures |Range(n)| == n - 1 && forall x :: x in Range(n) <==> 1 <= x < n
  {
    if n > 1 {
      RangeSize(n - 1);
    }
  }

  /** Everything below scan is taken. */
  ghost predicate Taken(seen: set<int>, scan: nat) {
    scan >= 1 && forall y :: 1 <= y < scan ==> y in seen
  }

  lemma TakenStep(seen: set<int>, scan: nat)
    requires Taken(seen, scan)
    ensures scan in seen ==> Taken(seen, scan + 1)
    ensures Taken(seen + {scan}, scan + 1)
  {
  }

  lemma TakenMore(seen: set<int>, x: int, scan: nat)
    requires Taken(seen, scan)
    ensures Taken(seen + {x}, scan)
  {
  }

  /** Then scan is still inside the domain. */
  lemma Pigeonhole(seen: set<int>, scan: nat, count: nat, bound: nat)
    requires Taken(seen, scan) && |seen| + count <= bound - 1 && count > 0
    ensures 1 <= scan < bound
  {
    RangeSize(scan);
    forall x | x in Range(scan) ensures x in seen {}
    SubsetSize(Range(scan), seen);
  }

  lemma {:induction false} SubsetSize<T>(a: set<T>, b: set<T>)
    requires a <= b
    ensures |a| <= |b|
    decreases |a|
  {
    if a != {} {
      var x :| x in a;
      SubsetSize(a - {x}, b - {x});
    }
  }

  /** New elements of the domain, none seen before, none twice, all of them seen from now on. */
  ghost predicate NewOk(t: seq<int>, seen: set<int>, seen': set<int>, bound: nat) {
    && NoDuplicates(t) && (forall k :: 0 <= k < |t| ==> 1 <= t[k] < bound && t[k] !in seen)
    && seen' == seen + Elements(t) && |seen'| == |seen| + |t|
  }

  /** What sampling adds: `count` new elements at the end. */
  ghost predicate Sampled(out: seq<int>, seen: set<int>, out': seq<int>, seen': set<int>, count: nat, bound: nat) {
    |out'| == |out| + count && out'[..|out|] == out && NewOk(out'[|out|..], seen, seen', bound)
  }

  lemma NewStep(t: seq<int>, seen: set<int>, seen': set<int>, bound: nat, x: int)
    requires NewOk(t, seen, seen', bound) && 1 <= x < bound && x !in seen'
    ensures NewOk(t + [x], seen, seen' + {x}, bound)
  {
    ElementsSnoc(t, x);
    StillDistinct(t, x);
    SetSnoc(seen, Elements(t), seen', x);
    hide Elements, NoDuplicates;
  }

  lemma SetSnoc(s: set<int>, e: set<int>, s': set<int>, x: int)
    requires s' == s + e && x !in s'
    ensures s' + {x} == s + (e + {x}) && |s' + {x}| == |s'| + 1 && x !in s && x !in e
  {
  }

  lemma ElementsSnoc(t: seq<int>, x: int)
    ensures Elements(t + [x]) == Elements(t) + {x} && (x in t <==> x in Elements(t))
  {
  }

  lemma StillDistinct(t: seq<int>, x: int)
    requires NoDuplicates(t) && x !in t
    ensures NoDuplicates(t + [x])
  {
  }

  lemma SampleOne(out: seq<int>, seen: set<int>, out': seq<int>, seen': set<int>, c: nat, bound: nat, x: int)
    requires Sampled(out, seen, out', seen', c, bound) && 1 <= x < bound && x !in seen'
    ensures Sampled(out, seen, out' + [x], seen' + {x}, c + 1, bound)
  {
    hide NewOk;
    assert (out' + [x])[|out|..] == out'[|out|..] + [x];
    NewStep(out'[|out|..], seen, seen', bound, x);
  }

  lemma NothingSampled(out: seq<int>, seen: set<int>, bound: nat)
    ensures Sampled(out, seen, out, seen, 0, bound)
  {
    assert out[|out|..] == [];
  }

  /** An element of the result is one of the old ones, or new: seen now and not seen before. */
  lemma NewIsSeen(out: seq<int>, seen: set<int>, out': seq<int>, seen': set<int>, count: nat, bound: nat, x: int)
    requires Sampled(out, seen, out', seen', count, bound) && x in out'
    ensures x in out || (x in seen' && x !in seen)
  {
    var k :| 0 <= k < |out'| && out'[k] == x;
    if k < |out| {
      assert out'[..|out|][k] == x;
    } else {
      assert out'[|out|..][k - |out|] == x;
      assert x in Elements(out'[|out|..]);
    }
  }

  lemma OldStay(out: seq<int>, seen: set<int>, out': seq<int>, seen': set<int>, count: nat, bound: nat, x: int)
    requires Sampled(out, seen, out', seen', count, bound) && x in out
    ensures x in out'
  {
    var k :| 0 <= k < |out| && out[k] == x;
    assert out'[..|out|][k] == x;
  }

  // ---- what the draws decide ----

  /** A draw that is accepted: non-zero and not seen before. */
  predicate Good(x: int, seen: set<int>) {
    x != 0 && x !in seen
  }

  /** The smallest positive number not seen before. */
  ghost predicate LeastUnseen(x: int, seen: set<int>) {
    x >= 1 && x !in seen && forall y :: 1 <= y < x ==> y in seen
  }

  /** x is the next element and the stream moves from p to p': x is the first good draw, after fewer than 64 bad ones;
      or all of the next 64 draws are bad, and x is the least unseen number. */
  ghost predicate Pick(draw: nat -> nat, seen: set<int>, p: nat, x: int, p': nat) {
    || (p < p' <= p + MAX_REJECTED && (forall j: nat :: p <= j < p' - 1 ==> !Good(draw(j), seen))
        && Good(draw(p' - 1), seen) && x == draw(p' - 1))
    || (p' == p + MAX_REJECTED && (forall j: nat :: p <= j < p' ==> !Good(draw(j), seen)) && LeastUnseen(x, seen))
  }

  /** All the added elements, one after the other; the stream ends up at p. */
  ghost predicate Picked(draw: nat -> nat, p0: nat, seen: set<int>, added: seq<int>, p: nat)
    decreases |added|
  {
    if |added| == 0 then p == p0
    else
      var n := |added| - 1;
      exists mid: nat ::
        Picked(draw, p0, seen, added[..n], mid) && Pick(draw, seen + Elements(added[..n]), mid, added[n], p)
  }

  /** The stream decides the next element and where it continues. */
  lemma PickUnique(draw: nat -> nat, seen: set<int>, p: nat, x: int, p': nat, y: int, q': nat)
    requires Pick(draw, seen, p, x, p') && Pick(draw, seen, p, y, q')
    ensures x == y && p' == q'
  {
    var end, end' := Good(draw(p' - 1), seen), Good(draw(q' - 1), seen);
  }

  /** The last of the added elements. */
  lemma PickedLast(draw: nat -> nat, p0: nat, seen: set<int>, added: seq<int>, p: nat) returns (mid: nat)
    requires Picked(draw, p0, seen, added, p) && |added| > 0
    ensures var t, x := added[..|added| - 1], added[|added| - 1];
      added == t + [x] && Picked(draw, p0, seen, t, mid) && Pick(draw, seen + Elements(t), mid, x, p)
  {
    var n := |added| - 1;
    mid :| Picked(draw, p0, seen, added[..n], mid) && Pick(draw, seen + Elements(added[..n]), mid, added[n], p);
  }

  lemma PickedNone(draw: nat -> nat, p0: nat, seen: set<int>, added: seq<int>, p: nat)
    requires Picked(draw, p0, seen, added, p) && |added| == 0
    ensures p == p0
  {
  }

  /** The whole result is a function of the stream. */
  lemma {:induction false} PickedUnique(draw: nat -> nat, p0: nat, seen: set<int>, added: seq<int>, p: nat,
                                        added': seq<int>, p': nat)
    requires Picked(draw, p0, seen, added, p) && Picked(draw, p0, seen, added', p') && |added| == |added'|
    ensures added == added' && p == p'
    decreases |added|
  {
    hide *;
    if |added| == 0 {
      PickedNone(draw, p0, seen, added, p);
      PickedNone(draw, p0, seen, added', p');
    } else {
      var n := |added| - 1;
      var mid := PickedLast(draw, p0, seen, added, p);
      var mid' := PickedLast(draw, p0, seen, added', p');
      PickedUnique(draw, p0, seen, added[..n], mid, added'[..n], mid');
      PickUnique(draw, seen + Elements(added[..n]), mid, added[n], p, added'[n], p');
    }
  }

  /** A good draw is taken at once. */
  lemma PickGood(draw: nat -> nat, seen: set<int>, p: nat, x: int, p': nat)
    requires Pick(draw, seen, p, x, p') && Good(draw(p), seen)
    ensures x == draw(p) && p' == p + 1
  {
  }

  lemma StillGood(x: int, seen: set<int>, t: seq<int>)
    requires Good(x, seen) && forall k :: 0 <= k < |t| ==> t[k] != x
    ensures Good(x, seen + Elements(t))
  {
  }

  /** If the first draws are non-zero, distinct and unseen, they are the result, and nothing else is drawn. */
  lemma {:induction false} DrawsTaken(draw: nat -> nat, p0: nat, seen: set<int>, added: seq<int>, p: nat)
    requires Picked(draw, p0, seen, added, p)
    requires forall j: nat :: p0 <= j < p0 + |added| ==> Good(draw(j), seen)
    requires forall i: nat, j: nat :: p0 <= i < j < p0 + |added| ==> draw(i) != draw(j)
    ensures p == p0 + |added| && forall k :: 0 <= k < |added| ==> added[k] == draw(p0 + k)
    decreases |added|
  {
    hide *;
    if |added| == 0 {
      PickedNone(draw, p0, seen, added, p);
    } else {
      var n := |added| - 1;
      var mid := PickedLast(draw, p0, seen, added, p);
      var t := added[..n];
      DrawsTaken(draw, p0, seen, t, mid);
      forall k | 0 <= k < n ensures t[k] != draw(mid) { assert t[k] == draw(p0 + k); }
      StillGood(draw(mid), seen, t);
      PickGood(draw, seen + Elements(t), mid, added[n], p);
      forall k | 0 <= k < |added| ensures added[k] == draw(p0 + k) {
        if k < n { assert added[k] == t[k]; }
      }
    }
  }

  // ---- while the scan is not needed ----

  /** Draw j is good for the first time. */
  ghost predicate New(draw: nat -> nat, p0: nat, seen: set<int>, j: nat) {
    Good(draw(j), seen) && forall i: nat :: p0 <= i < j ==> draw(i) != draw(j)
  }

  /** The draws from p0 to p that are non-zero and not seen before, in order. */
  ghost function NewDraws(draw: nat -> nat, p0: nat, seen: set<int>, p: nat): seq<int>
    decreases p
  {
    if p <= p0 then []
    else NewDraws(draw, p0, seen, p - 1) + (if New(draw, p0, seen, p - 1) then [draw(p - 1)] else [])
  }

  lemma {:induction false} NewDrawsHas(draw: nat -> nat, p0: nat, seen: set<int>, p: nat, x: int)
    ensures x in NewDraws(draw, p0, seen, p) <==> Good(x, seen) && exists i: nat :: p0 <= i < p && draw(i) == x
    decreases p
  {
    if p > p0 {
      NewDrawsHas(draw, p0, seen, p - 1, x);
      if exists i: nat :: p0 <= i < p && draw(i) == x {
        var i: nat :| p0 <= i < p && draw(i) == x;
        if !New(draw, p0, seen, p - 1) && i == p - 1 && Good(x, seen) {
          var k: nat :| p0 <= k < p - 1 && draw(k) == draw(p - 1);
        }
      }
    }
  }

  /** After the draws up to mid, a draw is good exactly if it is new. */
  lemma GoodIsNew(draw: nat -> nat, p0: nat, seen: set<int>, mid: nat, j: nat)
    requires p0 <= mid <= j
    requires forall i: nat :: mid <= i < j ==> !Good(draw(i), seen + Elements(NewDraws(draw, p0, seen, mid)))
    ensures Good(draw(j), seen + Elements(NewDraws(draw, p0, seen, mid))) <==> New(draw, p0, seen, j)
  {
    var s := NewDraws(draw, p0, seen, mid);
    NewDrawsHas(draw, p0, seen, mid, draw(j));
    if Good(draw(j), seen) {
      if i: nat :| p0 <= i < j && draw(i) == draw(j) {
        if i >= mid { assert !Good(draw(i), seen + Elements(s)); }
        assert draw(j) in s;
      }
    }
  }

  lemma {:induction false} NoneNew(draw: nat -> nat, p0: nat, seen: set<int>, mid: nat, p: nat)
    requires p0 <= mid <= p && forall j: nat :: mid <= j < p ==> !New(draw, p0, seen, j)
    ensures NewDraws(draw, p0, seen, p) == NewDraws(draw, p0, seen, mid)
    decreases p
  {
    if mid < p { NoneNew(draw, p0, seen, mid, p - 1); }
  }

  lemma {:induction false} BadRun(draw: nat -> nat, p0: nat, seen: set<int>, mid: nat, p: nat)
    requires p0 <= mid <= p
    requires forall i: nat :: mid <= i < p ==> !Good(draw(i), seen + Elements(NewDraws(draw, p0, seen, mid)))
    ensures forall j: nat :: mid <= j < p ==> !New(draw, p0, seen, j)
    ensures NewDraws(draw, p0, seen, p) == NewDraws(draw, p0, seen, mid)
  {
    forall j: nat | mid <= j < p ensures !New(draw, p0, seen, j) { GoodIsNew(draw, p0, seen, mid, j); }
    NoneNew(draw, p0, seen, mid, p);
  }

  /** One of the 64 draws from w on is new. */
  ghost predicate Fertile(draw: nat -> nat, p0: nat, seen: set<int>, w: nat) {
    exists j: nat :: w <= j < w + MAX_REJECTED && New(draw, p0, seen, j)
  }

  /** One more element, when the scan is not needed. */
  lemma NextDraw(draw: nat -> nat, p0: nat, seen: set<int>, mid: nat, x: int, p: nat)
    requires p0 <= mid && Pick(draw, seen + Elements(NewDraws(draw, p0, seen, mid)), mid, x, p)
    requires mid + MAX_REJECTED <= p ==> Fertile(draw, p0, seen, mid)
    ensures p > mid && New(draw, p0, seen, p - 1) && NewDraws(draw, p0, seen, p) == NewDraws(draw, p0, seen, mid) + [x]
  {
    var s := seen + Elements(NewDraws(draw, p0, seen, mid));
    hide New, Good, LeastUnseen, Elements;
    if forall j: nat :: mid <= j < p ==> !Good(draw(j), s) {
      assert p == mid + MAX_REJECTED;
      BadRun(draw, p0, seen, mid, p);
      assert false;
    }
    BadRun(draw, p0, seen, mid, p - 1);
    GoodIsNew(draw, p0, seen, mid, p - 1);
  }

  /** As long as every 64 draws in a row hold a new one, the added elements are exactly the new draws, in order, and
      exactly the draws up to the last of them have been looked at. */
  lemma {:induction false} OnlyDraws(draw: nat -> nat, p0: nat, seen: set<int>, added: seq<int>, p: nat)
    requires Picked(draw, p0, seen, added, p)
    requires forall w: nat :: p0 <= w && w + MAX_REJECTED <= p ==> Fertile(draw, p0, seen, w)
    ensures p >= p0 && added == NewDraws(draw, p0, seen, p)
    ensures |added| > 0 ==> p > p0 && New(draw, p0, seen, p - 1)
    decreases |added|
  {
    hide *;
    if |added| == 0 {
      PickedNone(draw, p0, seen, added, p);
      NoNewDraws(draw, p0, seen);
    } else {
      var n := |added| - 1;
      var mid := PickedLast(draw, p0, seen, added, p);
      PickMoves(draw, seen + Elements(added[..n]), mid, added[n], p);
      OnlyDraws(draw, p0, seen, added[..n], mid);
      NextDraw(draw, p0, seen, mid, added[n], p);
    }
  }

  lemma NoNewDraws(draw: nat -> nat, p0: nat, seen: set<int>)
    ensures NewDraws(draw, p0, seen, p0) == []
  {
  }

  lemma PickMoves(draw: nat -> nat, seen: set<int>, p: nat, x: int, p': nat)
    requires Pick(draw, seen, p, x, p')
    ensures p < p' <= p + MAX_REJECTED
  {
  }

  method SampleUnique(maxItems: nat, bound: nat, draw: nat -> nat, pos0: nat, out0: seq<int>, seen0: set<int>, count0: nat)
    returns (res: Result<(seq<int>, set<int>)>, pos: nat)
    requires bound >= 1 && forall k :: draw(k) < bound
    ensures res.Ok? <==> |out0| + count0 <= maxItems && |seen0| + count0 <= maxItems && |seen0| + count0 <= bound - 1
    ensures res.Ok? ==> Sampled(out0, seen0, res.value.0, res.value.1, count0, bound)
    ensures res.Ok? ==> |res.value.0| >= |out0| && Picked(draw, pos0, seen0, res.value.0[|out0|..], pos)
    ensures res.Err? ==> pos == pos0
  {
    hide *;
    pos := pos0;
    if |out0| + count0 > maxItems { return Err("item count outside CG_MAX_ITEMS"), pos; }
    if |seen0| + count0 > maxItems { return Err("combined item count exceeds CG_MAX_ITEMS"), pos; }
    if |seen0| + count0 > bound - 1 {
      return Err("PSI sampling domain has too few nonzero unused elements"), pos;
    }
    var out, seen, count := out0, seen0, count0;
    var rejected, scan := 0, 1;
    // how many have been added, and where the stream was after the last of them
    ghost var added: nat, start: nat := 0, pos0;
    Begun(draw, pos0, out0, seen0, bound);
    TakenAtStart(seen);
    while count > 0
      invariant 0 <= count && added + count == count0 && |seen| == |seen0| + added && scan >= 1 && Taken(seen, scan)
      invariant Added(draw, pos0, out0, seen0, out, seen, added, bound, start)
      invariant Waiting(draw, seen, start, pos, rejected) && (count == 0 ==> pos == start)
      decreases count, bound - scan, MAX_REJECTED - rejected
    {
      Pigeonhole(seen, scan, count, bound);
      TakenStep(seen, scan);
      Waits(draw, seen, start, pos, rejected, scan);
      var x;
      if rejected < MAX_REJECTED {
        x := draw(pos);
        TakenMore(seen, x, scan);
        pos := pos + 1;
      } else {
        x := scan;
        scan := scan + 1;
      }
      rejected := rejected + 1;
      if x != 0 {
        if x !in seen {
          Accept(draw, pos0, out0, seen0, out, seen, added, bound, start, x, pos);
          seen := seen + {x};
          out := out + [x];
          count := count - 1;
          rejected := 0;
          added, start := added + 1, pos;
          NoWait(draw, seen, pos);
        }
      }
    }
    AddedMeans(draw, pos0, out0, seen0, out, seen, count0, bound, start);
    res := Ok((out, seen));
  }

  /** What has been added so far, and where the stream was afterwards. */
  ghost predicate Added(draw: nat -> nat, p0: nat, out0: seq<int>, seen0: set<int>, out: seq<int>, seen: set<int>,
                        k: nat, bound: nat, start: nat)
  {
    Sampled(out0, seen0, out, seen, k, bound) && Picked(draw, p0, seen0, out[|out0|..], start)
  }

  lemma AddedMeans(draw: nat -> nat, p0: nat, out0: seq<int>, seen0: set<int>, out: seq<int>, seen: set<int>,
                   k: nat, bound: nat, start: nat)
    requires Added(draw, p0, out0, seen0, out, seen, k, bound, start)
    ensures Sampled(out0, seen0, out, seen, k, bound) && |out| >= |out0|
    ensures Picked(draw, p0, seen0, out[|out0|..], start)
  {
  }

  lemma Begun(draw: nat -> nat, p0: nat, out0: seq<int>, seen0: set<int>, bound: nat)
    ensures Added(draw, p0, out0, seen0, out0, seen0, 0, bound, p0) && Waiting(draw, seen0, p0, p0, 0)
  {
    NothingSampled(out0, seen0, bound);
    assert out0[|out0|..] == [];
  }

  lemma Accept(draw: nat -> nat, p0: nat, out0: seq<int>, seen0: set<int>, out: seq<int>, seen: set<int>,
               k: nat, bound: nat, start: nat, x: int, p: nat)
    requires Added(draw, p0, out0, seen0, out, seen, k, bound, start)
    requires 1 <= x < bound && x !in seen && Pick(draw, seen, start, x, p)
    ensures Added(draw, p0, out0, seen0, out + [x], seen + {x}, k + 1, bound, p) && |seen + {x}| == |seen| + 1
  {
    hide *;
    AddedMeans(draw, p0, out0, seen0, out, seen, k, bound, start);
    SampledSeen(out0, seen0, out, seen, k, bound);
    var t := out[|out0|..];
    PickedSnoc(draw, p0, seen0, t, start, x, p);
    SampleOne(out0, seen0, out, seen, k, bound, x);
    assert (out + [x])[|out0|..] == t + [x];
    AddedIs(draw, p0, out0, seen0, out + [x], seen + {x}, k + 1, bound, p);
  }

  lemma AddedIs(draw: nat -> nat, p0: nat, out0: seq<int>, seen0: set<int>, out: seq<int>, seen: set<int>,
                k: nat, bound: nat, p: nat)
    requires Sampled(out0, seen0, out, seen, k, bound) && |out| >= |out0| && Picked(draw, p0, seen0, out[|out0|..], p)
    ensures Added(draw, p0, out0, seen0, out, seen, k, bound, p)
  {
  }

  /** The draws since the last element were all bad; after 64 of them no more are made. */
  ghost predicate Waiting(draw: nat -> nat, seen: set<int>, start: nat, pos: nat, rejected: nat) {
    && pos == start + (if rejected < MAX_REJECTED then rejected else MAX_REJECTED)
    && forall j: nat :: start <= j < pos ==> !Good(draw(j), seen)
  }

  lemma NoWait(draw: nat -> nat, seen: set<int>, pos: nat)
    ensures Waiting(draw, seen, pos, pos, 0)
  {
  }

  /** The two ways to go on: with the next draw, or with the scan. */
  lemma Waits(draw: nat -> nat, seen: set<int>, start: nat, pos: nat, rejected: nat, scan: nat)
    requires Waiting(draw, seen, start, pos, rejected) && Taken(seen, scan)
    ensures rejected < MAX_REJECTED ==>
      if draw(pos) != 0 && draw(pos) !in seen then Pick(draw, seen, start, draw(pos), pos + 1)
      else Waiting(draw, seen, start, pos + 1, rejected + 1)
    ensures rejected >= MAX_REJECTED ==>
      Waiting(draw, seen, start, pos, rejected + 1) && (scan !in seen ==> scan != 0 && Pick(draw, seen, start, scan, pos))
  {
  }

  lemma SampledSeen(out: seq<int>, seen: set<int>, out': seq<int>, seen': set<int>, count: nat, bound: nat)
    requires Sampled(out, seen, out', seen', count, bound)
    ensures |out'| == |out| + count && seen' == seen + Elements(out'[|out|..])
  {
  }

  lemma PickedSnoc(draw: nat -> nat, p0: nat, seen: set<int>, t: seq<int>, mid: nat, x: int, p: nat)
    requires Picked(draw, p0, seen, t, mid) && Pick(draw, seen + Elements(t), mid, x, p)
    ensures Picked(draw, p0, seen, t + [x], p)
  {
    assert (t + [x])[..|t|] == t;
  }

  lemma TakenAtStart(seen: set<int>)
    ensures Taken(seen, 1)
  {
  }

  function Overlap(mA: nat, mB: nat): nat {
    Min(mA, mB) / 5
  }

  /** Both sets are duplicate-free, of the requested sizes, and share exactly the overlap. */
  ghost predicate SetsOk(a: seq<int>, b: seq<int>, mA: nat, mB: nat, bound: nat) {
    && |a| == mA && |b| == mB && NoDuplicates(a) && NoDuplicates(b)
    && (forall x :: x in a || x in b ==> 1 <= x < bound)
    && |Elements(a) * Elements(b)| == Overlap(mA, mB)
  }

  /** Both sets are exactly what the three streams give: the shared part first, then the rest of A, then the rest of
      B, each skipping everything taken before. */
  ghost predicate FromStreams(a: seq<int>, b: seq<int>, k: nat, drawS: nat -> nat, drawA: nat -> nat, drawB: nat -> nat) {
    && k <= |a| && k <= |b| && b[..k] == a[..k]
    && (exists p: nat :: Picked(drawS, 0, {}, a[..k], p))
    && (exists p: nat :: Picked(drawA, 0, Elements(a[..k]), a[k..], p))
    && (exists p: nat :: Picked(drawB, 0, Elements(a), b[k..], p))
  }

  lemma StreamsIntro(shared: seq<int>, a: seq<int>, b: seq<int>, drawS: nat -> nat, drawA: nat -> nat,
                     drawB: nat -> nat, pS: nat, pA: nat, pB: nat)
    requires shared <= a && shared <= b && Picked(drawS, 0, {}, shared, pS)
    requires Picked(drawA, 0, Elements(shared), a[|shared|..], pA) && Picked(drawB, 0, Elements(a), b[|shared|..], pB)
    ensures FromStreams(a, b, |shared|, drawS, drawA, drawB)
  {
    hide Picked, Elements;
    assert a[..|shared|] == shared && b[..|shared|] == shared;
  }

  /** What has been seen is what is in the vector. */
  lemma SeenIsElements(shared: seq<int>, a: seq<int>, s2: set<int>, count: nat, bound: nat)
    requires Sampled(shared, Elements(shared), a, s2, count, bound)
    ensures shared <= a && s2 == Elements(a)
  {
    SampledSeen(shared, Elements(shared), a, s2, count, bound);
    var k := |shared|;
    assert a == shared + a[k..];
    ElementsConcat(shared, a[k..]);
  }

  lemma ElementsConcat(s: seq<int>, t: seq<int>)
    ensures Elements(s + t) == Elements(s) + Elements(t)
  {
    forall x ensures x in Elements(s + t) <==> x in Elements(s) + Elements(t) { assert x in s + t <==> x in s || x in t; }
  }

  lemma PrefixOf(shared: seq<int>, seen: set<int>, a: seq<int>, seen': set<int>, count: nat, bound: nat)
    requires Sampled(shared, seen, a, seen', count, bound)
    ensures shared <= a
  {
  }

  lemma Extended(shared: seq<int>, seen: set<int>, a: seq<int>, seen': set<int>, count: nat, bound: nat)
    requires Sampled(shared, seen, a, seen', count, bound) && NoDuplicates(shared) && Elements(shared) <= seen
    ensures NoDuplicates(a)
  {
    forall i, j | 0 <= i < j < |a| ensures a[i] != a[j] {
      if i < |shared| {
        assert a[i] == a[..|shared|][i] == shared[i];
        if j < |shared| { assert a[j] == shared[j]; } else { assert shared[i] in shared; }
      } else {
        assert a[i] == a[|shared|..][i - |shared|] && a[j] == a[|shared|..][j - |shared|];
      }
    }
  }

  /** The common elements are the shared ones. */
  lemma CommonPart(shared: seq<int>, a: seq<int>, b: seq<int>, s1: set<int>, s2: set<int>, s3: set<int>,
                   cA: nat, cB: nat, bound: nat)
    requires NoDuplicates(shared) && s1 == Elements(shared)
    requires Sampled(shared, s1, a, s2, cA, bound) && Sampled(shared, s2, b, s3, cB, bound)
    ensures Elements(a) * Elements(b) == Elements(shared)
  {
    hide Sampled;
    forall x ensures x in Elements(a) * Elements(b) <==> x in Elements(shared) {
      if x in shared {
        OldStay(shared, s1, a, s2, cA, bound, x);
        OldStay(shared, s2, b, s3, cB, bound, x);
      }
      if x in a && x in b {
        NewIsSeen(shared, s1, a, s2, cA, bound, x);
        NewIsSeen(shared, s2, b, s3, cB, bound, x);
      }
    }
  }

  method MakeRandomPsiSets(maxItems: nat, bound: nat, mA: nat, mB: nat,
                           drawS: nat -> nat, drawA: nat -> nat, drawB: nat -> nat)
    returns (res: Result<(seq<int>, seq<int>)>)
    requires bound >= 1 && forall k :: drawS(k) < bound && drawA(k) < bound && drawB(k) < bound
    ensures res.Ok? <==>
      mA >= 1 && mB >= 1 && mA + mB <= maxItems && mA + mB - Overlap(mA, mB) <= bound - 1
    ensures res.Ok? ==> SetsOk(res.value.0, res.value.1, mA, mB, bound)
    ensures res.Ok? ==> FromStreams(res.value.0, res.value.1, Overlap(mA, mB), drawS, drawA, drawB)
  {
    if mA == 0 || mA > maxItems || mB == 0 || mB > maxItems { return Err("item count outside CG_MAX_ITEMS"); }
    if mB > maxItems - mA { return Err("combined item count exceeds CG_MAX_ITEMS"); }
    var unionSize := mA + mB - Min(mA, mB) / 5;
    if unionSize > bound - 1 { return Err("PSI union exceeds nonzero sampling domain"); }
    var overlap := Min(mA, mB) / 5;
    var s, pS := SampleUnique(maxItems, bound, drawS, 0, [], {}, overlap);
    var (shared, seenAll) := s.value;
    assert shared[0..] == shared;
    // none of the checks inside the other two calls can fail any more
    var a, pA := SampleUnique(maxItems, bound, drawA, 0, shared, seenAll, mA - overlap);
    var b, pB := SampleUnique(maxItems, bound, drawB, 0, shared, a.value.1, mB - overlap);
    assert a.Ok? && b.Ok?;
    SharedFacts(shared, seenAll, bound);
    SeenIsElements(shared, a.value.0, a.value.1, mA - overlap, bound);
    PrefixOf(shared, a.value.1, b.value.0, b.value.1, mB - overlap, bound);
    StreamsIntro(shared, a.value.0, b.value.0, drawS, drawA, drawB, pS, pA, pB);
    FinishSets(shared, seenAll, a.value.0, a.value.1, b.value.0, b.value.1, mA, mB, bound);
    res := Ok((a.value.0, b.value.0));
  }

  lemma FinishSets(shared: seq<int>, s1: set<int>, a: seq<int>, s2: set<int>, b: seq<int>, s3: set<int>,
                   mA: nat, mB: nat, bound: nat)
    requires |shared| == Overlap(mA, mB) <= mA && Overlap(mA, mB) <= mB
    requires Sampled([], {}, shared, s1, |shared|, bound)
    requires Sampled(shared, s1, a, s2, mA - |shared|, bound) && Sampled(shared, s2, b, s3, mB - |shared|, bound)
    ensures SetsOk(a, b, mA, mB, bound)
  {
    SharedFacts(shared, s1, bound);
    SizeOf(shared, s1, a, s2, mA - |shared|, bound);
    SizeOf(shared, s2, b, s3, mB - |shared|, bound);
    hide *;
    CountDistinct(shared);
    Extended(shared, s1, a, s2, mA - |shared|, bound);
    Extended(shared, s2, b, s3, mB - |shared|, bound);
    CommonPart(shared, a, b, s1, s2, s3, mA - |shared|, mB - |shared|, bound);
    InDomain(shared, s1, a, s2, mA - |shared|, bound);
    InDomain(shared, s2, b, s3, mB - |shared|, bound);
    SetsIntro(a, b, mA, mB, bound);
  }

  lemma SetsIntro(a: seq<int>, b: seq<int>, mA: nat, mB: nat, bound: nat)
    requires |a| == mA && |b| == mB && NoDuplicates(a) && NoDuplicates(b)
    requires (forall x :: x in a ==> 1 <= x < bound) && (forall x :: x in b ==> 1 <= x < bound)
    requires |Elements(a) * Elements(b)| == Overlap(mA, mB)
    ensures SetsOk(a, b, mA, mB, bound)
  {
  }

  lemma SizeOf(out: seq<int>, seen: set<int>, out': seq<int>, seen': set<int>, count: nat, bound: nat)
    requires Sampled(out, seen, out', seen', count, bound)
    ensures |out'| == |out| + count && seen <= seen'
  {
  }

  lemma SharedFacts(shared: seq<int>, s1: set<int>, bound: nat)
    requires Sampled([], {}, shared, s1, |shared|, bound)
    ensures NoDuplicates(shared) && s1 == Elements(shared)
    ensures forall k :: 0 <= k < |shared| ==> 1 <= shared[k] < bound
  {
    assert shared[0..] == shared;
  }

  lemma InDomain(shared: seq<int>, seen: set<int>, a: seq<int>, seen': set<int>, count: nat, bound: nat)
    requires Sampled(shared, seen, a, seen', count, bound) && forall k :: 0 <= k < |shared| ==> 1 <= shared[k] < bound
    ensures forall x :: x in a ==> 1 <= x < bound
  {
    forall k | 0 <= k < |a| ensures 1 <= a[k] < bound {
      if k < |shared| { assert a[..|shared|][k] == shared[k]; }
    }
  }
}
