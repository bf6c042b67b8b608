/** Deterministic sharding of a batch over TCP lanes: contiguous ranges that both ends compute alone. */
module Lanes {
  import opened ModArith
  import opened Results

  const MAX_LANES: nat := 64

  /** Start of lane `lane`; also the end of the lane before it. */
  function LaneStart(n: nat, lanes: nat, lane: nat): nat
    requires lanes > 0
  {
    (n / lanes) * lane + ((n % lanes) * lane) / lanes
  }

  /** Item i is on the lane: the lane's ends are n * lane / lanes and n * (lane + 1) / lanes, rounded down. */
  predicate Assigned(n: nat, lanes: nat, lane: nat, i: nat) {
    n * lane < (i + 1) * lanes <= n * (lane + 1)
  }

  function LaneRange(maxItems: nat, n: nat, lanes: nat, lane: nat): Result<(nat, nat)> {
    if n == 0 || n > maxItems then Err("item count outside CG_MAX_ITEMS")
    else if lanes == 0 || lanes > MAX_LANES || lane >= lanes then Err("invalid lane range")
    else Ok((LaneStart(n, lanes, lane), LaneStart(n, lanes, lane + 1)))
  }

  /** Splitting off the quotient first loses nothing: the start is the floor of n * lane / lanes. */
  lemma LaneFloor(n: nat, lanes: nat, lane: nat)
    requires lanes > 0
    ensures LaneStart(n, lanes, lane) * lanes <= n * lane < LaneStart(n, lanes, lane) * lanes + lanes
  {
    var d, r := n / lanes, n % lanes;
    var s := (r * lane) / lanes;
    assert n == d * lanes + r;
    SplitProduct(d, lanes, r, lane);
    SplitFloor(d * lane, s, lanes);
    assert r * lane == s * lanes + (r * lane) % lanes;
  }

  /** What each end computes alone: it fails exactly on a bad count or lane, and the range runs from the floor of
      n * lane / lanes to the floor of n * (lane + 1) / lanes. */
  lemma LaneRangeFloors(maxItems: nat, n: nat, lanes: nat, lane: nat)
    ensures LaneRange(maxItems, n, lanes, lane).Ok? <==> 0 < n <= maxItems && lanes <= MAX_LANES && lane < lanes
    ensures LaneRange(maxItems, n, lanes, lane).Ok? ==>
      var (from, to) := LaneRange(maxItems, n, lanes, lane).value;
      && from * lanes <= n * lane < from * lanes + lanes
      && to * lanes <= n * (lane + 1) < to * lanes + lanes
  {
    if lane < lanes {
      LaneFloor(n, lanes, lane);
      LaneFloor(n, lanes, lane + 1);
    }
    hide LaneStart;
  }

  lemma SplitProduct(d: int, lanes: int, r: int, lane: int)
    ensures (d * lanes + r) * lane == (d * lane) * lanes + r * lane
  {
  }

  lemma SplitFloor(a: int, s: int, lanes: int)
    ensures (a + s) * lanes == a * lanes + s * lanes
  {
  }

  /** An item is between the two floors exactly if the lane carries it. */
  lemma BetweenFloors(n: nat, lanes: nat, lane: nat, i: nat)
    requires lanes > 0
    ensures LaneStart(n, lanes, lane) <= i < LaneStart(n, lanes, lane + 1) <==> Assigned(n, lanes, lane, i)
  {
    var f, t := LaneStart(n, lanes, lane), LaneStart(n, lanes, lane + 1);
    LaneFloor(n, lanes, lane);
    LaneFloor(n, lanes, lane + 1);
    hide LaneStart;
    FloorOrder(f, lanes, n * lane, i);
    FloorOrder(t, lanes, n * (lane + 1), i);
  }

  /** f is the floor of x / lanes. */
  lemma FloorOrder(f: int, lanes: int, x: int, i: int)
    requires lanes > 0 && f * lanes <= x < f * lanes + lanes
    ensures i < f <==> (i + 1) * lanes <= x
  {
    if i < f {
      Monotone(i + 1, f, lanes);
    } else {
      Monotone(f + 1, i + 1, lanes);
      assert (f + 1) * lanes == f * lanes + lanes;
    }
  }

  lemma Monotone(a: int, b: int, c: int)
    requires a <= b && c >= 0
    ensures a * c <= b * c
  {
  }

  lemma DivStep(x: nat, r: nat, d: nat)
    requires r < d
    ensures x / d <= (x + r) / d <= x / d + 1
  {
    var k, m := x / d, x % d;
    assert x == k * d + m;
    if m + r < d {
      ModUnique(x + r, k, m + r, d);
    } else {
      assert x + r == (k + 1) * d + (m + r - d);
      ModUnique(x + r, k + 1, m + r - d, d);
    }
  }

  /** Sizes differ by at most one. */
  lemma LaneSize(n: nat, lanes: nat, lane: nat)
    requires lanes > 0
    ensures var size := LaneStart(n, lanes, lane + 1) - LaneStart(n, lanes, lane);
      size == n / lanes || size == n / lanes + 1
  {
    var r := n % lanes;
    assert r * (lane + 1) == r * lane + r;
    assert (n / lanes) * (lane + 1) == (n / lanes) * lane + n / lanes;
    DivStep(r * lane, r, lanes);
  }

  /** The ranges start at 0 and end at n. */
  lemma LaneEnds(n: nat, lanes: nat)
    requires lanes > 0
    ensures LaneStart(n, lanes, 0) == 0 && LaneStart(n, lanes, lanes) == n
  {
    assert (n / lanes) * 0 == 0 && (n % lanes) * 0 == 0;
    ModUnique(0, 0, 0, lanes);
    ModUnique((n % lanes) * lanes, n % lanes, 0, lanes);
  }

  lemma {:induction false} LaneOrder(n: nat, lanes: nat, a: nat, b: nat)
    requires lanes > 0 && a <= b
    ensures LaneStart(n, lanes, a) <= LaneStart(n, lanes, b)
    decreases b - a
  {
    hide LaneStart;
    if a < b {
      LaneOrder(n, lanes, a, b - 1);
      LaneSize(n, lanes, b - 1);
    }
  }

  ghost predicate OnLane(n: nat, lanes: nat, lane: nat, i: nat)
    requires lanes > 0
  {
    LaneStart(n, lanes, lane) <= i < LaneStart(n, lanes, lane + 1)
  }

  /** Every index lies on some lane, and on no other. */
  lemma LanePartition(n: nat, lanes: nat, i: nat) returns (lane: nat)
    requires lanes > 0 && i < n
    ensures lane < lanes && forall l: nat :: OnLane(n, lanes, l, i) <==> l == lane
    ensures forall l: nat :: Assigned(n, lanes, l, i) <==> l == lane
  {
    hide LaneStart, Assigned;
    forall l: nat ensures Assigned(n, lanes, l, i) <==> OnLane(n, lanes, l, i) { BetweenFloors(n, lanes, l, i); }
    LaneEnds(n, lanes);
    lane := FindLane(n, lanes, i, lanes);
    forall l: nat ensures OnLane(n, lanes, l, i) <==> l == lane {
      if l < lane { LaneOrder(n, lanes, l + 1, lane); }
      if lane < l { LaneOrder(n, lanes, lane + 1, l); }
    }
  }

  lemma {:induction false} FindLane(n: nat, lanes: nat, i: nat, top: nat) returns (lane: nat)
    requires lanes > 0 && LaneStart(n, lanes, 0) <= i < LaneStart(n, lanes, top)
    ensures lane < top && LaneStart(n, lanes, lane) <= i < LaneStart(n, lanes, lane + 1)
    decreases top
  {
    if top > 0 && LaneStart(n, lanes, top - 1) <= i {
      lane := top - 1;
    } else {
      lane := FindLane(n, lanes, i, top - 1);
    }
  }

  /** All the boundaries at once. */
  function Boundaries(n: nat, lanes: nat): (lo: seq<nat>)
    requires lanes > 0
    ensures |lo| == lanes + 1
  {
    seq(lanes + 1, l requires 0 <= l <= lanes => LaneStart(n, lanes, l))
  }

  /** A sequence of boundaries cutting [0, n) into consecutive lanes. */
  ghost predicate Cuts(lo: seq<nat>, n: nat) {
    |lo| >= 2 && lo[0] == 0 && lo[|lo| - 1] == n && forall a, b :: 0 <= a <= b < |lo| ==> lo[a] <= lo[b]
  }

  lemma BoundariesCut(n: nat, lanes: nat)
    requires lanes > 0
    ensures Cuts(Boundaries(n, lanes), n)
    ensures forall l :: 0 <= l <= lanes ==>
      Boundaries(n, lanes)[l] * lanes <= n * l < Boundaries(n, lanes)[l] * lanes + lanes
  {
    var lo := Boundaries(n, lanes);
    forall l | 0 <= l <= lanes ensures lo[l] * lanes <= n * l < lo[l] * lanes + lanes { LaneFloor(n, lanes, l); }
    hide LaneStart;
    LaneEnds(n, lanes);
    forall a, b | 0 <= a <= b < |lo| ensures lo[a] <= lo[b] { LaneOrder(n, lanes, a, b); }
  }

  /** The first index of lane l that is not below x, capped by the end of the lane. */
  function Clip(lo: seq<nat>, l: nat, x: nat): nat
    requires l + 1 < |lo|
  {
    if x <= lo[l] then lo[l] else if x >= lo[l + 1] then lo[l + 1] else x
  }

  /** The part of [begin, end) on a lane, as the program computes it. */
  function RangeIntersection(maxItems: nat, n: nat, lanes: nat, lane: nat, begin: nat, end: nat): Result<(nat, nat)> {
    match LaneRange(maxItems, n, lanes, lane)
    case Err(message) => Err(message)
    case Ok((from, to)) => Ok((if from > begin then from else begin, if to < end then to else end))
  }

  /** It fails exactly on a bad count or lane; otherwise it is what lies between the two clipped positions: empty
      together, equal otherwise. */
  lemma IntersectionClips(maxItems: nat, n: nat, lanes: nat, lane: nat, begin: nat, end: nat)
    requires begin <= end
    ensures var r := RangeIntersection(maxItems, n, lanes, lane, begin, end);
      && (r.Ok? <==> 0 < n <= maxItems && lanes <= MAX_LANES && lane < lanes)
      && (r.Ok? ==> var lo := Boundaries(n, lanes);
            if r.value.0 < r.value.1
            then r.value.0 == Clip(lo, lane, begin) && r.value.1 == Clip(lo, lane, end)
            else Clip(lo, lane, begin) == Clip(lo, lane, end))
      && (r.Ok? ==> forall i: nat ::
            r.value.0 <= i < r.value.1 <==> begin <= i < end && Assigned(n, lanes, lane, i))
  {
    if lane < lanes {
      BoundariesCut(n, lanes);
      forall i: nat ensures OnLane(n, lanes, lane, i) <==> Assigned(n, lanes, lane, i) {
        BetweenFloors(n, lanes, lane, i);
      }
    }
    hide LaneStart, Assigned;
  }

  /** The lane carries something of [begin, end). */
  ghost predicate Busy(lo: seq<nat>, l: nat, begin: nat, end: nat) {
    l + 1 < |lo| && Clip(lo, l, begin) < Clip(lo, l, end)
  }

  lemma BusyRange(maxItems: nat, n: nat, lanes: nat, lane: nat, begin: nat, end: nat)
    requires 0 < n <= maxItems && lanes <= MAX_LANES && lane < lanes && begin <= end
    ensures var r := RangeIntersection(maxItems, n, lanes, lane, begin, end);
      r.Ok? && (r.value.0 < r.value.1 <==> Busy(Boundaries(n, lanes), lane, begin, end))
    ensures Busy(Boundaries(n, lanes), lane, begin, end)
        <==> exists i: nat :: begin <= i < end && Assigned(n, lanes, lane, i)
  {
    IntersectionClips(maxItems, n, lanes, lane, begin, end);
    BoundariesCut(n, lanes);
    hide LaneStart, Assigned;
    var r := RangeIntersection(maxItems, n, lanes, lane, begin, end);
    if r.value.0 < r.value.1 { assert begin <= r.value.0 < end && Assigned(n, lanes, lane, r.value.0); }
  }

  lemma NotBusy(n: nat, lanes: nat, l: nat, begin: nat, end: nat)
    requires 0 < lanes <= l
    ensures !Busy(Boundaries(n, lanes), l, begin, end)
    ensures forall i: nat :: i < n ==> !Assigned(n, lanes, l, i)
  {
    forall i: nat | i < n ensures !Assigned(n, lanes, l, i) {
      Monotone(i + 1, n, lanes);
      Monotone(lanes, l, n);
    }
  }

  /** Lanes that carry something of [begin, end), in ascending order. */
  method ActiveLanes(maxItems: nat, fds: nat, n: nat, size: nat, begin: nat, end: nat) returns (res: Result<seq<nat>>)
    ensures res.Ok? <==> 0 < n <= maxItems && 0 < fds <= MAX_LANES && n <= size && begin <= end <= n
    ensures res.Ok? ==> forall l: nat :: l in res.value <==> Busy(Boundaries(n, fds), l, begin, end)
    ensures res.Ok? ==>
      forall l: nat :: l in res.value <==> exists i: nat :: begin <= i < end && Assigned(n, fds, l, i)
    ensures res.Ok? ==> forall j, k :: 0 <= j < k < |res.value| ==> res.value[j] < res.value[k]
  {
    hide *;
    if n == 0 || n > maxItems { return Err("item count outside CG_MAX_ITEMS"); }
    if fds == 0 || fds > MAX_LANES || n > size || begin > end || end > n { return Err("invalid RF I/O range"); }
    var active: seq<nat> := [];
    for lane := 0 to fds
      invariant forall l: nat :: l in active <==> l < lane && Busy(Boundaries(n, fds), l, begin, end)
      invariant forall k :: 0 <= k < |active| ==> active[k] < lane
      invariant forall j, k :: 0 <= j < k < |active| ==> active[j] < active[k]
    {
      BusyRange(maxItems, n, fds, lane, begin, end);
      var range := RangeIntersection(maxItems, n, fds, lane, begin, end);
      if range.value.0 < range.value.1 { active := active + [lane]; }
    }
    forall l: nat
      ensures fds <= l ==> !Busy(Boundaries(n, fds), l, begin, end)
      ensures Busy(Boundaries(n, fds), l, begin, end) <==> exists i: nat :: begin <= i < end && Assigned(n, fds, l, i)
    {
      if l < fds { BusyRange(maxItems, n, fds, l, begin, end); } else { NotBusy(n, fds, l, begin, end); }
    }
    res := Ok(active);
  }

  /** Total length of the parts of [y, x) on the first k lanes. */
  ghost function Carried(lo: seq<nat>, k: nat, y: nat, x: nat): int
    requires k < |lo|
  {
    if k == 0 then 0 else Carried(lo, k - 1, y, x) + Clip(lo, k - 1, x) - Clip(lo, k - 1, y)
  }

  /** The lanes together carry every index of [y, x) once. */
  lemma {:induction false} CarriedAll(lo: seq<nat>, n: nat, k: nat, y: nat, x: nat)
    requires Cuts(lo, n) && k < |lo| && y <= x
    ensures Carried(lo, k, y, x) == (if x < lo[k] then x else lo[k]) - (if y < lo[k] then y else lo[k])
  {
    if k > 0 { CarriedAll(lo, n, k - 1, y, x); }
  }

  lemma {:induction false} FindCut(lo: seq<nat>, i: nat, top: nat) returns (l: nat)
    requires top < |lo| && lo[0] <= i < lo[top]
    ensures l < top && lo[l] <= i < lo[l + 1]
    decreases top
  {
    if lo[top - 1] <= i {
      l := top - 1;
    } else {
      l := FindCut(lo, i, top - 1);
    }
  }

  lemma ClipOrder(lo: seq<nat>, n: nat, l: nat, x: nat, y: nat)
    requires Cuts(lo, n) && l + 1 < |lo| && x <= y
    ensures lo[l] <= Clip(lo, l, x) <= Clip(lo, l, y) <= lo[l + 1] <= n
  {
  }
}
