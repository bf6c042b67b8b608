/** The in-place iterative NTT of cg_rf_common.hpp: bit-reversal swaps, then one pass of
    butterflies per stage, then the scaling of the inverse. */
module NttInplace {
  import opened ModArith
  import opened Poly
  import opened Results
  import opened Dft
  import opened Engine

  // ---- bit reversal ----

  /** i with its e low bits reversed. */
  function Rev(i: nat, e: nat): nat {
    if e == 0 then 0 else (if i % 2 == 1 then Pow2(e - 1) else 0) + Rev(i / 2, e - 1)
  }

  lemma {:induction false} RevBound(i: nat, e: nat)
    requires i < Pow2(e)
    ensures Rev(i, e) < Pow2(e)
  {
    if e > 0 { RevBound(i / 2, e - 1); }
  }

  /** Reversal read from the top bit: below the middle it doubles, above it doubles and adds 1. */
  lemma {:induction false} RevTop(i: nat, e: nat)
    requires e > 0 && i < Pow2(e)
    ensures Rev(i, e) == if i < Pow2(e - 1) then 2 * Rev(i, e - 1) else 2 * Rev(i - Pow2(e - 1), e - 1) + 1
  {
    if e == 1 {
      assert Pow2(1) == 2 * Pow2(0) && Rev(i / 2, 0) == 0;
    } else {
      RevTop(i / 2, e - 1);
      var h := Pow2(e - 1);
      assert h == 2 * Pow2(e - 2);
      if i < h {
        assert i / 2 < Pow2(e - 2);
      } else {
        assert (i - h) / 2 == i / 2 - Pow2(e - 2) && (i - h) % 2 == i % 2;
      }
    }
  }

  lemma {:induction false} RevInvolution(i: nat, e: nat)
    requires i < Pow2(e)
    ensures Rev(i, e) < Pow2(e) && Rev(Rev(i, e), e) == i
  {
    RevBound(i, e);
    if e > 0 {
      RevBound(i / 2, e - 1);
      RevInvolution(i / 2, e - 1);
      RevTop(Rev(i, e), e);
    }
  }

  /** `j & bit` for a power of two bit. */
  predicate BitSet(j: nat, bit: nat) {
    bit != 0 && (j / bit) % 2 == 1
  }

  /** `j ^= bit`. */
  function FlipBit(j: nat, bit: nat): nat {
    if BitSet(j, bit) then if j >= bit then j - bit else 0 else j + bit
  }

  lemma BitSetBelow(j: nat, bit: nat)
    requires 0 < bit && j < 2 * bit
    ensures BitSet(j, bit) <==> j >= bit
  {
    if j >= bit {
      ModUnique(j, 1, j - bit, bit);
    } else {
      ModUnique(j, 0, j, bit);
    }
  }

  /** The inner loop: adds one to j as a number written with its e bits reversed. */
  method ReverseIncrement(j0: nat, ghost i: nat, ghost e: nat, n: nat) returns (j: nat)
    requires n == Pow2(e) && i + 1 < n && j0 == Rev(i, e)
    ensures j == Rev(i + 1, e)
  {
    Pow2Positive(e);
    j := j0;
    var bit := n / 2;
    ghost var d: nat, m: nat := e - 1, i;
    assert bit == Pow2(d);
    RevBound(i, e);
    while BitSet(j, bit)
      invariant bit == Pow2(d) && m + 1 < Pow2(d + 1)
      invariant j == Rev(m, d + 1) && j < 2 * bit
      invariant Rev(i + 1, e) == Rev(m + 1, d + 1)
      decreases d
    {
      BitSetBelow(j, bit);
      RevBound(m / 2, d);
      assert m % 2 == 1 && (m + 1) % 2 == 0 && (m + 1) / 2 == m / 2 + 1;
      assert Pow2(1) == 2 * Pow2(0);
      j := FlipBit(j, bit);
      bit := bit / 2;
      d, m := d - 1, m / 2;
    }
    BitSetBelow(j, bit);
    RevBound(m / 2, d);
    assert m % 2 == 0 && (m + 1) / 2 == m / 2;
    j := FlipBit(j, bit);
  }

  /** An index below i or with its mirror image below i holds its final value, the others are untouched. */
  ghost predicate SwappedAt(a: seq<int>, was: seq<int>, i: nat, e: nat, k: nat)
    requires |a| == |was| && k < |a|
  {
    Rev(k, e) < |a| && a[k] == was[if k < i || Rev(k, e) < i then Rev(k, e) else k]
  }

  ghost predicate Swapped(a: seq<int>, was: seq<int>, i: nat, e: nat)
    requires |a| == |was|
  {
    forall k :: 0 <= k < |a| ==> SwappedAt(a, was, i, e, k)
  }

  lemma SwappedAtStart(a: seq<int>, e: nat)
    requires |a| == Pow2(e)
    ensures Swapped(a, a, 1, e)
  {
    hide Rev, Pow2;
    RevZero(e);
    forall k | 0 <= k < |a| ensures SwappedAt(a, a, 1, e, k) { RevInvolution(k, e); }
  }

  /** The swap of i with its mirror image, done only when i is the smaller of the two. */
  function SwapPair(a: seq<int>, i: nat, j: nat): (r: seq<int>)
    requires i < |a| && j < |a|
    ensures |r| == |a|
  {
    if i < j then a[i := a[j]][j := a[i]] else a
  }

  lemma SwapStep(a: seq<int>, was: seq<int>, i: nat, e: nat)
    requires |a| == |was| == Pow2(e) && i < |a| && Rev(i, e) < |a| && Swapped(a, was, i, e)
    ensures Swapped(SwapPair(a, i, Rev(i, e)), was, i + 1, e)
  {
    hide Rev, Pow2, SwapPair, SwappedAt;
    var j := Rev(i, e);
    var b, next := SwapPair(a, i, j), i + 1;
    RevInvolution(i, e);
    assert SwappedAt(a, was, i, e, i) && SwappedAt(a, was, i, e, j);
    forall k | 0 <= k < |a| ensures SwappedAt(b, was, next, e, k) {
      assert SwappedAt(a, was, i, e, k);
      RevInvolution(k, e);
      SwapIndex(a, was, i, j, k, Rev(k, e), e);
    }
  }

  lemma SwapIndex(a: seq<int>, was: seq<int>, i: nat, j: nat, k: nat, m: nat, e: nat)
    requires |a| == |was| && i < |a| && j < |a| && k < |a| && m < |a|
    requires j == Rev(i, e) && i == Rev(j, e) && m == Rev(k, e) && k == Rev(m, e)
    requires SwappedAt(a, was, i, e, i) && SwappedAt(a, was, i, e, j) && SwappedAt(a, was, i, e, k)
    ensures SwappedAt(SwapPair(a, i, j), was, i + 1, e, k)
  {
    hide Rev;
  }

  lemma SwappedDone(a: seq<int>, was: seq<int>, e: nat, k: nat)
    requires |a| == |was| && Swapped(a, was, |a|, e) && k < |a|
    ensures Rev(k, e) < |a| && a[k] == was[Rev(k, e)]
  {
    assert SwappedAt(a, was, |a|, e, k);
  }

  /** The permutation loop: an index and its mirror image are swapped when the smaller one is reached. */
  method BitReverse(a: array<int>, ghost e: nat)
    requires a.Length == Pow2(e)
    modifies a
    ensures forall k :: 0 <= k < a.Length ==> Rev(k, e) < a.Length && a[k] == old(a[..])[Rev(k, e)]
  {
    hide Rev, Swapped, SwappedAt, Pow2;
    var n := a.Length;
    var j := 0;
    ghost var was := a[..];
    RevZero(e);
    SwappedAtStart(was, e);
    Pow2Positive(e);
    for i := 1 to n
      invariant j == Rev(i - 1, e)
      invariant Swapped(a[..], was, i, e)
    {
      j := ReverseIncrement(j, i - 1, e, n);
      RevInvolution(i, e);
      ghost var before := a[..];
      SwapStep(before, was, i, e);
      if i < j {
        a[i], a[j] := a[j], a[i];
      }
      assert a[..] == SwapPair(before, i, j);
    }
    forall k | 0 <= k < n ensures Rev(k, e) < n && a[k] == was[Rev(k, e)] { SwappedDone(a[..], was, e, k); }
  }

  lemma Pow2Positive(e: nat)
    ensures Pow2(e) >= 1 && (Pow2(e) >= 2 ==> e >= 1)
  {
  }

  lemma {:induction false} RevZero(e: nat)
    ensures Rev(0, e) == 0
  {
    if e > 0 { RevZero(e - 1); }
  }

  // ---- butterfly stages ----

  /** What entry k holds, modulo q, once blocks of 2^(e-d) entries are finished: the transform, at the root
      of the block's own length, of the subsequence of a that d even/odd splits send to that block. */
  ghost function Entry(a: seq<int>, e: nat, d: nat, rt: seq<int>, k: nat): int
    requires |a| == Pow2(e) && d <= e < |rt| && k < |a|
    decreases d
  {
    if d == 0 then Eval(a, Pow(rt[e], k))
    else if k < Pow2(e - 1) then Entry(Evens(a), e - 1, d - 1, rt, k)
    else Entry(Odds(a), e - 1, d - 1, rt, k - Pow2(e - 1))
  }

  /** Before the first stage the entries are the bit-reversed input. */
  lemma {:induction false} EntryAtStart(a: seq<int>, e: nat, rt: seq<int>, k: nat)
    requires |a| == Pow2(e) && e < |rt| && k < |a|
    ensures Rev(k, e) < |a| && Entry(a, e, e, rt, k) == a[Rev(k, e)]
    decreases e
  {
    RevBound(k, e);
    if e == 0 {
      assert a == [a[0]] + [];
      EvalCons(a[0], [], Pow(rt[0], 0));
      assert Eval([], Pow(rt[0], 0)) == 0;
    } else {
      RevTop(k, e);
      if k < Pow2(e - 1) {
        EntryAtStart(Evens(a), e - 1, rt, k);
      } else {
        EntryAtStart(Odds(a), e - 1, rt, k - Pow2(e - 1));
      }
    }
  }

  /** p is the start of one of the 2^d blocks of 2^t entries. */
  ghost predicate BlockStart(p: nat, d: nat, t: nat)
    decreases d
  {
    if d == 0 then p == 0
    else
      var half := Pow2(d - 1 + t);
      if p < half then BlockStart(p, d - 1, t) else BlockStart(p - half, d - 1, t)
  }

  lemma {:induction false} BlockStartZero(d: nat, t: nat)
    ensures BlockStart(0, d, t)
    decreases d
  {
    if d > 0 { BlockStartZero(d - 1, t); }
  }

  lemma {:induction false} BlockStartNext(p: nat, d: nat, t: nat)
    requires BlockStart(p, d, t)
    ensures var r := p + Pow2(t); r == Pow2(d + t) || (r < Pow2(d + t) && BlockStart(r, d, t))
    decreases d
  {
    if d > 0 {
      var half := Pow2(d - 1 + t);
      if p < half {
        BlockStartNext(p, d - 1, t);
        BlockStartZero(d - 1, t);
      } else {
        BlockStartNext(p - half, d - 1, t);
      }
    }
  }

  /** A butterfly with twiddle x turns u, v into lo, hi. */
  ghost predicate Joined(lo: int, hi: int, u: int, v: int, x: int, q: int)
    requires q > 0
  {
    Cong(lo, u + x * v, q) && Cong(hi, u - x * v, q)
  }

  lemma EntryHalf(a: seq<int>, e: nat, d: nat, rt: seq<int>, k: nat)
    requires |a| == Pow2(e) && 1 <= d <= e < |rt| && k < |a|
    ensures k < Pow2(e - 1) ==> Entry(a, e, d, rt, k) == Entry(Evens(a), e - 1, d - 1, rt, k)
    ensures k >= Pow2(e - 1) ==> Entry(a, e, d, rt, k) == Entry(Odds(a), e - 1, d - 1, rt, k - Pow2(e - 1))
  {
  }

  lemma BlockSplit(p: nat, d: nat, t: nat)
    requires BlockStart(p, d, t)
    ensures d == 0 ==> p == 0
    ensures d > 0 ==> (if p < Pow2(d - 1 + t) then BlockStart(p, d - 1, t) else BlockStart(p - Pow2(d - 1 + t), d - 1, t))
  {
  }

  lemma Pow2Double(k: nat)
    requires k > 0
    ensures Pow2(k) == 2 * Pow2(k - 1)
  {
  }

  lemma HalvesLength(a: seq<int>, e: nat)
    requires |a| == Pow2(e) && e >= 1
    ensures |Evens(a)| == |Odds(a)| == Pow2(e - 1)
  {
  }

  /** One stage: entries j and h + j of a block of 2h come from the same two entries of the stage before. */
  lemma {:induction false} EntryButterfly(a: seq<int>, e: nat, d: nat, rt: seq<int>, p: nat, j: nat, h: nat, q: int)
    requires q > 0 && Roots(rt, q) && |a| == Pow2(e) && d + 1 <= e < |rt|
    requires BlockStart(p, d, e - d) && h == Pow2(e - d - 1) && j < h
    ensures p + h + j < |a|
    ensures Joined(Entry(a, e, d, rt, p + j), Entry(a, e, d, rt, p + h + j),
                   Entry(a, e, d + 1, rt, p + j), Entry(a, e, d + 1, rt, p + h + j), Pow(rt[e - d], j), q)
    decreases d
  {
    hide *;
    BlockSplit(p, d, e - d);
    BlockStartNext(p, d, e - d);
    Pow2Double(e - d);
    HalvesLength(a, e);
    if d == 0 {
      FirstBlock(a, e, rt, j, q);
    } else {
      var n := Pow2(e - 1);
      Pow2Double(e);
      if p < n {
        BlockStartNext(p, d - 1, e - d);
      }
      assert p + h + j < n || n <= p;
      EntryHalf(a, e, d, rt, p + j);
      EntryHalf(a, e, d, rt, p + h + j);
      EntryHalf(a, e, d + 1, rt, p + j);
      EntryHalf(a, e, d + 1, rt, p + h + j);
      if p < n {
        EntryButterfly(Evens(a), e - 1, d - 1, rt, p, j, h, q);
      } else {
        EntryButterfly(Odds(a), e - 1, d - 1, rt, p - n, j, h, q);
        assert p - n + j == p + j - n && p - n + h + j == p + h + j - n;
      }
    }
  }

  lemma FirstBlock(a: seq<int>, e: nat, rt: seq<int>, j: nat, q: int)
    requires q > 0 && Roots(rt, q) && |a| == Pow2(e) && 1 <= e < |rt| && j < Pow2(e - 1)
    ensures var h := Pow2(e - 1);
      Joined(Entry(a, e, 0, rt, j), Entry(a, e, 0, rt, h + j), Entry(a, e, 1, rt, j), Entry(a, e, 1, rt, h + j),
             Pow(rt[e], j), q)
  {
    RootSquares(rt, e, q);
    FirstEntries(a, e, rt, j);
    FirstEntries(a, e, rt, Pow2(e - 1) + j);
    hide *;
    RootPower(rt, e, q);
    ButterflyLow(a, rt[e], rt[e - 1], j, q);
    ButterflyHigh(a, rt[e], rt[e - 1], Pow2(e - 1), j, q);
    JoinedIs(Entry(a, e, 0, rt, j), Entry(a, e, 0, rt, Pow2(e - 1) + j), Entry(a, e, 1, rt, j),
             Entry(a, e, 1, rt, Pow2(e - 1) + j), Pow(rt[e], j), q);
  }

  lemma RootSquares(rt: seq<int>, e: nat, q: int)
    requires q > 0 && Roots(rt, q) && 1 <= e < |rt|
    ensures Cong(rt[e] * rt[e], rt[e - 1], q)
  {
    assert Cong(rt[e - 1 + 1] * rt[e - 1 + 1], rt[e - 1], q);
  }

  /** The last stage's entries, and those it reads. */
  lemma FirstEntries(a: seq<int>, e: nat, rt: seq<int>, k: nat)
    requires |a| == Pow2(e) && 1 <= e < |rt| && k < |a|
    ensures |a| == 2 * Pow2(e - 1) && |Evens(a)| == |Odds(a)| == Pow2(e - 1)
    ensures Entry(a, e, 0, rt, k) == Eval(a, Pow(rt[e], k))
    ensures Entry(a, e, 1, rt, k) == if k < Pow2(e - 1) then Eval(Evens(a), Pow(rt[e - 1], k))
                                     else Eval(Odds(a), Pow(rt[e - 1], k - Pow2(e - 1)))
  {
  }

  lemma JoinedIs(lo: int, hi: int, u: int, v: int, x: int, q: int)
    requires q > 0 && Cong(lo, u + x * v, q) && Cong(hi, u - x * v, q)
    ensures Joined(lo, hi, u, v, x, q)
  {
  }

  /** The entries of a are those of the stage with d splits, modulo q. */
  ghost predicate Holds(a: seq<int>, x: seq<int>, e: nat, d: nat, rt: seq<int>, q: int)
    requires q > 0 && d <= e < |rt| && |a| == |x| == Pow2(e)
  {
    forall k :: 0 <= k < |a| ==> Cong(a[k], Entry(x, e, d, rt, k), q)
  }

  /** Two entries of a block after their butterfly, the rest as before. */
  lemma ButterflyStep(u: int, b: int, w: int, p: int, lo: int, hi: int, u': int, b': int, q: int)
    requires q > 0 && Cong(w, p, q) && Cong(u, u', q) && Cong(b, b', q) && Joined(lo, hi, u', b', p, q)
    ensures Cong((u + (b * w) % q) % q, lo, q) && Cong((u - (b * w) % q) % q, hi, q)
  {
    CongMul(b, b', w, p, q);
    CongMod(b * w, q);
    assert Cong((b * w) % q, p * b', q) by { assert b' * p == p * b'; }
    CongAdd(u, u', (b * w) % q, p * b', q);
    CongSub(u, u', (b * w) % q, p * b', q);
    CongMod(u + (b * w) % q, q);
    CongMod(u - (b * w) % q, q);
  }

  lemma PowerZero(x: int, q: int)
    requires q > 0
    ensures Cong(1, Pow(x, 0), q)
  {
  }

  lemma PowerStep(w: int, p: int, wlen: int, j: nat, q: int)
    requires q > 0 && p == Pow(wlen, j) && Cong(w, p, q)
    ensures Cong((w * wlen) % q, Pow(wlen, j + 1), q)
  {
    CongScale(w, p, wlen, q);
    CongMod(w * wlen, q);
  }

  /** The butterflies of the block at i; x is the vector being transformed. */
  method RunBlock(a: array<int>, i: nat, h: nat, wlen: int, q: int,
                  ghost x: seq<int>, ghost e: nat, ghost d: nat, ghost rt: seq<int>)
    requires q > 1 && a.Length == |x| == Pow2(e) && d + 1 <= e < |rt| && h == Pow2(e - d - 1)
    requires BlockStart(i, d, e - d) && i + 2 * h <= a.Length && wlen == rt[e - d]
    modifies a
    ensures forall k :: 0 <= k < a.Length && (k < i || i + 2 * h <= k) ==> a[k] == old(a[k])
    ensures Roots(rt, q) && (forall k :: i <= k < i + 2 * h ==> Cong(old(a[k]), Entry(x, e, d + 1, rt, k), q)) ==>
      forall k :: i <= k < i + 2 * h ==> Cong(a[k], Entry(x, e, d, rt, k), q)
    ensures forall k :: i <= k < i + 2 * h ==> 0 <= a[k] < q
  {
    hide *;
    ghost var good := Roots(rt, q) && forall k :: i <= k < i + 2 * h ==> Cong(a[k], Entry(x, e, d + 1, rt, k), q);
    var w := 1;
    PowerZero(wlen, q);
    for j := 0 to h
      invariant Cong(w, Pow(wlen, j), q)
      invariant forall k :: 0 <= k < a.Length && (k < i || i + 2 * h <= k) ==> a[k] == old(a[k])
      invariant forall k :: i + j <= k < i + h || i + h + j <= k < i + 2 * h ==> a[k] == old(a[k])
      invariant good ==> forall k :: i <= k < i + j || i + h <= k < i + h + j ==>
        Cong(a[k], Entry(x, e, d, rt, k), q)
      invariant forall k :: i <= k < i + j || i + h <= k < i + h + j ==> 0 <= a[k] < q
    {
      var u := a[i + j];
      var b := a[i + j + h];
      var v := (b * w) % q;
      if good {
        EntryButterfly(x, e, d, rt, i, j, h, q);
        ButterflyStep(u, b, w, Pow(wlen, j), Entry(x, e, d, rt, i + j), Entry(x, e, d, rt, i + h + j),
                      Entry(x, e, d + 1, rt, i + j), Entry(x, e, d + 1, rt, i + h + j), q);
      }
      PowerStep(w, Pow(wlen, j), wlen, j, q);
      a[i + j] := (u + v) % q;
      a[i + j + h] := (u - v) % q;
      w := (w * wlen) % q;
    }
  }

  /** One stage: every block of len entries. */
  method RunStage(a: array<int>, len: nat, wlen: int, q: int,
                  ghost x: seq<int>, ghost e: nat, ghost d: nat, ghost rt: seq<int>)
    requires q > 1 && a.Length == |x| == Pow2(e) && d + 1 <= e < |rt| && len == Pow2(e - d) && wlen == rt[e - d]
    modifies a
    ensures Roots(rt, q) && Holds(old(a[..]), x, e, d + 1, rt, q) ==> Holds(a[..], x, e, d, rt, q)
    ensures Reduced(a[..], q)
  {
    ghost var good := Roots(rt, q) && Holds(a[..], x, e, d + 1, rt, q);
    hide Roots, Entry, Cong;
    var i := 0;
    BlockStartZero(d, e - d);
    assert len == 2 * Pow2(e - d - 1);
    while i < a.Length
      invariant 0 <= i <= a.Length && (i < a.Length ==> BlockStart(i, d, e - d))
      invariant good ==> Roots(rt, q)
      invariant good ==> forall k :: 0 <= k < i ==> Cong(a[k], Entry(x, e, d, rt, k), q)
      invariant good ==> forall k :: i <= k < a.Length ==> Cong(a[k], Entry(x, e, d + 1, rt, k), q)
      invariant forall k :: 0 <= k < i ==> 0 <= a[k] < q
    {
      BlockStartNext(i, d, e - d);
      RunBlock(a, i, len / 2, wlen, q, x, e, d, rt);
      i := i + len;
    }
  }

  /** The vector `ntt_inplace` leaves behind. With one entry the forward transform has no stage,
      so the entry is not even reduced. */
  function NttResult(c: Config, x: seq<int>, inverse: bool): seq<int>
    requires c.q > 1 && Supported(c, |x|)
  {
    var e := Log2(|x|);
    if inverse then
      var y := Transform(x, InverseTable(c, e)[e], c.q);
      seq(|x|, k requires 0 <= k < |x| => (y[k] * Inv(|x|, c.q)) % c.q)
    else if e == 0 then x
    else Transform(x, RootAt(c, e), c.q)
  }

  lemma {:induction false} Pow2Order(t: nat, e: nat)
    ensures Pow2(t) <= Pow2(e) <==> t <= e
  {
    if t > 0 && e > 0 { Pow2Order(t - 1, e - 1); }
  }

  /** The stage of length 2^t runs inside the domain, on its own root. */
  lemma StageOfLength(c: Config, t: nat, e: nat, n: nat)
    requires FieldOk(c) && Supported(c, n) && e == Log2(n) && Pow2(t) <= n
    ensures t <= e && Supported(c, Pow2(t))
    ensures PrimitiveRoot(c, Pow2(t)).Ok? <==> RootChecks(c, t)
    ensures PrimitiveRoot(c, Pow2(t)).Ok? ==> PrimitiveRoot(c, Pow2(t)).value == RootAt(c, t)
    ensures RootChecks(c, e) ==> RootChecks(c, t)
  {
    Pow2Order(t, e);
    Pow2IsPow2(t);
    PrimitiveRootMeaning(c, Pow2(t));
    if RootChecks(c, e) { ChecksDown(c, t, e); }
  }

  lemma StagesDone(a: seq<int>, x: seq<int>, e: nat, rt: seq<int>, q: int)
    requires q > 0 && e < |rt| && |a| == |x| == Pow2(e) && Holds(a, x, e, 0, rt, q)
    ensures forall k :: 0 <= k < |a| ==> Cong(a[k], Transform(x, rt[e], q)[k], q)
    ensures Reduced(a, q) ==> a == Transform(x, rt[e], q)
  {
    forall k | 0 <= k < |a|
      ensures Cong(a[k], Transform(x, rt[e], q)[k], q)
      ensures Reduced(a, q) ==> a[k] == Transform(x, rt[e], q)[k]
    {
      CongMod(Eval(x, Pow(rt[e], k)), q);
      if Reduced(a, q) { ModSmall(a[k], q); }
    }
  }

  lemma ScaledResult(y: seq<int>, z: seq<int>, m: int, q: int)
    requires q > 0 && |y| == |z| && forall k :: 0 <= k < |y| ==> Cong(y[k], z[k], q)
    ensures forall k :: 0 <= k < |y| ==> (y[k] * m) % q == (z[k] * m) % q
  {
    forall k | 0 <= k < |y| ensures (y[k] * m) % q == (z[k] * m) % q { CongScale(y[k], z[k], m, q); }
  }

  lemma ForwardEntry(c: Config, x: seq<int>, k: nat)
    requires c.q > 1 && Supported(c, |x|) && k < |x|
    ensures Cong(NttResult(c, x, false)[k], Eval(x, Pow(RootAt(c, Log2(|x|)), k)), c.q)
  {
    if Log2(|x|) == 0 {
      assert x == [x[0]] + [];
      EvalCons(x[0], [], 1);
      assert Eval([], 1) == 0 && Pow(RootAt(c, 0), 0) == 1;
    } else {
      CongMod(Eval(x, Pow(RootAt(c, Log2(|x|)), k)), c.q);
    }
  }

  /** Values at a power of the root are values at the power of the base that the program raises. */
  lemma EvalAtPower(c: Config, p: seq<int>, n: nat, k: nat)
    requires c.q > 1 && Supported(c, n) && k < n
    ensures Cong(Eval(p, Pow(RootAt(c, Log2(n)), k)), Eval(p, Pow(Pow(c.g, Exponent(c.q, n)), k)), c.q)
  {
    RootIsPower(c, n, k);
    hide Eval, Pow, RootAt;
    EvalCongArg(p, Pow(RootAt(c, Log2(n)), k), Pow(Pow(c.g, Exponent(c.q, n)), k), c.q);
  }

  /** The forward transform: entry k is the value at g to the ((q-1)/n) k. */
  lemma ForwardValue(c: Config, x: seq<int>, k: nat)
    requires c.q > 1 && Supported(c, |x|) && k < |x|
    ensures |NttResult(c, x, false)| == |x|
    ensures Cong(NttResult(c, x, false)[k], Eval(x, Pow(Pow(c.g, Exponent(c.q, |x|)), k)), c.q)
  {
    ForwardEntry(c, x, k);
    EvalAtPower(c, x, |x|, k);
  }

  /** The transform in place, both directions; an error is one of the two root checks failing. */
  method Ntt(c: Config, a: array<int>, inverse: bool) returns (res: Result<()>)
    requires FieldOk(c)
    modifies a
    ensures res.Ok? <==> Supported(c, a.Length) && RootChecks(c, Log2(a.Length))
    ensures res.Ok? ==> a[..] == NttResult(c, old(a[..]), inverse)
    ensures res.Ok? && !inverse ==> forall k :: 0 <= k < a.Length ==>
      Cong(a[k], Eval(old(a[..]), Pow(Pow(c.g, Exponent(c.q, a.Length)), k)), c.q)
  {
    var n, q := a.Length, c.q;
    if !Supported(c, n) { return Err("ntt_inplace: unsupported q or non-power-of-two size"); }
    ghost var x, e := a[..], Log2(n);
    ghost var rt := if inverse then InverseTable(c, e) else RootTable(c, e);
    BitReverse(a, e);
    forall k | 0 <= k < n ensures Cong(a[k], Entry(x, e, e, rt, k), q) { EntryAtStart(x, e, rt, k); }
    if RootChecks(c, e) { TablesInverse(c, e); }
    var ok := Stages(c, a, inverse, x, e, rt);
    if ok.Err? { return ok; }
    StagesDone(a[..], x, e, rt, q);
    if inverse {
      var nInv := Inv(n, q);
      ghost var y := a[..];
      for i := 0 to n
        invariant forall k :: 0 <= k < i ==> a[k] == (y[k] * nInv) % q
        invariant forall k :: i <= k < n ==> a[k] == y[k]
      {
        a[i] := (a[i] * nInv) % q;
      }
      ScaledResult(y, Transform(x, rt[e], q), nInv, q);
    } else if n == 1 {
      assert a[..] == x by { assert Rev(0, 0) == 0; }
    }
    if !inverse {
      forall k | 0 <= k < n ensures Cong(a[k], Eval(x, Pow(Pow(c.g, Exponent(q, n)), k)), q) { ForwardValue(c, x, k); }
    }
    res := Ok(());
  }

  /** The loop over the stage lengths 2, 4, ..., n. */
  method Stages(c: Config, a: array<int>, inverse: bool, ghost x: seq<int>, ghost e: nat, ghost rt: seq<int>)
    returns (res: Result<()>)
    requires FieldOk(c) && Supported(c, a.Length) && e == Log2(a.Length) && |x| == a.Length
    requires rt == if inverse then InverseTable(c, e) else RootTable(c, e)
    requires RootChecks(c, e) ==> Roots(rt, c.q)
    requires Holds(a[..], x, e, e, rt, c.q)
    modifies a
    ensures res.Ok? <==> RootChecks(c, e)
    ensures res.Ok? ==> Holds(a[..], x, e, 0, rt, c.q)
    ensures if e == 0 then a[..] == old(a[..]) else Reduced(a[..], c.q) || res.Err?
  {
    var n, q := a.Length, c.q;
    var len := 2;
    ghost var t := 1;
    assert Pow2(1) == 2 * Pow2(0);
    hide Roots, Holds, RootChecks, Supported, PrimitiveRoot, FieldOk;
    while len <= n
      invariant 1 <= t <= e + 1 && len == Pow2(t) && a.Length == |x| == Pow2(e)
      invariant RootChecks(c, e) ==> Holds(a[..], x, e, e - t + 1, rt, q)
      invariant if t == 1 then a[..] == old(a[..]) else Reduced(a[..], q)
      invariant t > 1 ==> RootChecks(c, t - 1)
    {
      StageOfLength(c, t, e, n);
      var root := PrimitiveRoot(c, len);
      if root.Err? { return Err(root.message); }
      var wlen := if inverse then Inv(root.value, q) else root.value;
      RunStage(a, len, wlen, q, x, e, e - t, rt);
      len := 2 * len;
      t := t + 1;
    }
    Pow2Order(t, e);
    assert RootChecks(c, 0) by { ChecksTrivial(c); }
    res := Ok(());
  }

  lemma ChecksTrivial(c: Config)
    requires c.q > 1
    ensures RootChecks(c, 0)
  {
  }
}
