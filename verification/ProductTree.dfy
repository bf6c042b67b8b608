/** Subproduct trees: construction, vanishing polynomials, multipoint evaluation by remainder descent,
    and the dispatcher that chooses between it, Horner's rule and the NTT. */
module ProductTree {
  import opened ModArith
  import opened Poly
  import opened PolyOps
  import opened Results
  import opened Engine
  import opened NttPoly
  import opened PolyMul
  import opened Vanishing

  // ---- the points below each node ----

  /** One level up: neighbours join, an odd last group is passed up unchanged. */
  function PairUp(gs: seq<seq<int>>): (r: seq<seq<int>>)
    ensures |r| == (|gs| + 1) / 2
  {
    seq((|gs| + 1) / 2, i requires 0 <= i < (|gs| + 1) / 2 => Paired(gs, i))
  }

  function Paired(gs: seq<seq<int>>, i: nat): seq<int>
    requires 2 * i < |gs|
  {
    if 2 * i + 1 < |gs| then gs[2 * i] + gs[2 * i + 1] else gs[2 * i]
  }

  /** The points below every node of a level. */
  function Groups(points: seq<int>, level: nat): (gs: seq<seq<int>>)
    ensures level == 0 ==> |gs| == |points| && forall i :: 0 <= i < |points| ==> gs[i] == [points[i]]
  {
    if level == 0 then seq(|points|, i requires 0 <= i < |points| => [points[i]])
    else PairUp(Groups(points, level - 1))
  }

  function Flatten(gs: seq<seq<int>>): seq<int> {
    if |gs| == 0 then [] else gs[0] + Flatten(gs[1..])
  }

  lemma {:induction false} FlattenPairs(gs: seq<seq<int>>)
    ensures Flatten(PairUp(gs)) == Flatten(gs)
    decreases |gs|
  {
    if |gs| == 1 {
      assert PairUp(gs) == [gs[0]];
    } else if |gs| > 1 {
      var rest := gs[2..];
      FlattenPairs(rest);
      assert PairUp(gs) == [gs[0] + gs[1]] + PairUp(rest);
      assert gs[1..][1..] == rest;
    }
  }

  lemma {:induction false} FlattenSingles(points: seq<int>)
    ensures Flatten(Groups(points, 0)) == points
  {
    if |points| > 0 {
      FlattenSingles(points[1..]);
      assert Groups(points, 0)[1..] == Groups(points[1..], 0);
    }
  }

  /** No level loses, repeats or reorders a point. */
  lemma {:induction false} FlattenGroups(points: seq<int>, level: nat)
    ensures Flatten(Groups(points, level)) == points
  {
    if level == 0 {
      FlattenSingles(points);
    } else {
      FlattenGroups(points, level - 1);
      FlattenPairs(Groups(points, level - 1));
    }
  }

  /** A single node at the top covers all the points. */
  lemma RootGroup(points: seq<int>, level: nat)
    requires |Groups(points, level)| == 1
    ensures Groups(points, level)[0] == points
  {
    FlattenGroups(points, level);
    assert Groups(points, level)[1..] == [];
  }

  // ---- construction ----

  /** Every node of a level is the vanishing polynomial of the points below it. */
  ghost predicate LevelOk(nodes: seq<seq<int>>, gs: seq<seq<int>>, q: int)
    requires q > 0
  {
    |nodes| == |gs| && forall i :: 0 <= i < |nodes| ==> nodes[i] == Norm(Vanish(gs[i]), q)
  }

  ghost predicate LevelsOk(levels: seq<seq<seq<int>>>, points: seq<int>, q: int)
    requires q > 0
  {
    forall l :: 0 <= l < |levels| ==> LevelOk(levels[l], Groups(points, l), q)
  }

  ghost predicate TreeOk(levels: seq<seq<seq<int>>>, points: seq<int>, q: int)
    requires q > 0
  {
    && (|levels| == 0 <==> |points| == 0)
    && LevelsOk(levels, points, q)
    && (|levels| > 0 ==> |levels[|levels| - 1]| == 1)
  }

  lemma GroupsUp(points: seq<int>, level: nat)
    ensures Groups(points, level + 1) == PairUp(Groups(points, level))
  {
  }

  lemma LevelSize(nodes: seq<seq<int>>, gs: seq<seq<int>>, q: int)
    requires q > 0 && LevelOk(nodes, gs, q)
    ensures |nodes| == |gs|
  {
  }

  /** The product polynomial at the top of a tree. */
  lemma TreeTop(levels: seq<seq<seq<int>>>, points: seq<int>, q: int)
    requires q > 0 && TreeOk(levels, points, q) && |levels| > 0
    ensures levels[|levels| - 1] == [Norm(Vanish(points), q)]
    ensures Groups(points, |levels| - 1) == [points]
    ensures |levels[0]| == |points|
  {
    hide LevelOk, LevelsOk, Norm, Vanish;
    var top := |levels| - 1;
    LevelOf(levels, 0, points, q);
    LevelOf(levels, top, points, q);
    RootGroup(points, top);
    NodeAt(levels[top], Groups(points, top), 0, q);
  }

  lemma NodeAt(nodes: seq<seq<int>>, gs: seq<seq<int>>, i: nat, q: int)
    requires q > 0 && LevelOk(nodes, gs, q) && i < |nodes|
    ensures |nodes| == |gs| && nodes[i] == Norm(Vanish(gs[i]), q)
  {
  }

  method BuildNode(c: Config, prev: seq<seq<int>>, i: nat, ghost gs: seq<seq<int>>) returns (node: seq<int>)
    requires EngineOk(c) && LevelOk(prev, gs, c.q) && 2 * i < |prev|
    ensures node == Norm(Vanish(PairUp(gs)[i]), c.q)
  {
    QIsPrime(c);
    hide EngineOk, Norm, Vanish;
    var li := 2 * i;
    var ri := li + 1;
    if ri < |prev| {
      node := PolyMulMod(c, prev[li], prev[ri]);
      NormVanishProduct(gs[li], gs[ri], c.q);
    } else {
      node := prev[li];
    }
  }

  /** The loop over the nodes of the next level; `parallel_for` runs its iterations in some order. */
  method BuildLevel(c: Config, prev: seq<seq<int>>, ghost gs: seq<seq<int>>) returns (next: seq<seq<int>>)
    requires EngineOk(c) && LevelOk(prev, gs, c.q)
    ensures LevelOk(next, PairUp(gs), c.q)
  {
    QIsPrime(c);
    LevelSize(prev, gs, c.q);
    ghost var up, q := PairUp(gs), c.q;
    hide LevelOk, EngineOk, Norm, Vanish;
    next := seq((|prev| + 1) / 2, _ => []);
    for i := 0 to |next|
      invariant |next| == (|prev| + 1) / 2 == |up|
      invariant forall k :: 0 <= k < i ==> next[k] == Norm(Vanish(up[k]), q)
    {
      var node := BuildNode(c, prev, i, gs);
      next := next[i := node];
    }
    LevelIntro(next, up, q);
  }

  lemma LevelIntro(nodes: seq<seq<int>>, gs: seq<seq<int>>, q: int)
    requires q > 0 && |nodes| == |gs| && forall i :: 0 <= i < |nodes| ==> nodes[i] == Norm(Vanish(gs[i]), q)
    ensures LevelOk(nodes, gs, q)
  {
  }

  lemma QIsPrime(c: Config)
    requires EngineOk(c)
    ensures Prime(c.q) && c.q > 1
  {
  }

  method BuildLeaves(c: Config, points: seq<int>) returns (leaves: seq<seq<int>>)
    requires EngineOk(c)
    ensures LevelOk(leaves, Groups(points, 0), c.q)
  {
    leaves := seq(|points|, i requires 0 <= i < |points| => LinearFromRoot(points[i], c.q));
    forall i | 0 <= i < |points| ensures leaves[i] == Norm(Vanish(Groups(points, 0)[i]), c.q) {
      NormVanishLeaf(points[i], c.q);
    }
  }

  lemma LevelAdded(levels: seq<seq<seq<int>>>, next: seq<seq<int>>, points: seq<int>, q: int)
    requires q > 0 && LevelsOk(levels, points, q) && LevelOk(next, Groups(points, |levels|), q)
    ensures LevelsOk(levels + [next], points, q)
  {
  }

  lemma LevelOf(levels: seq<seq<seq<int>>>, l: nat, points: seq<int>, q: int)
    requires q > 0 && LevelsOk(levels, points, q) && l < |levels|
    ensures LevelOk(levels[l], Groups(points, l), q) && |levels[l]| == |Groups(points, l)|
  {
  }

  method PolyBuildProductTree(c: Config, points: seq<int>) returns (levels: seq<seq<seq<int>>>)
    requires EngineOk(c)
    ensures TreeOk(levels, points, c.q)
  {
    QIsPrime(c);
    if |points| == 0 { return []; }
    var leaves := BuildLeaves(c, points);
    levels := [leaves];
    LevelSize(leaves, Groups(points, 0), c.q);
    assert LevelsOk(levels, points, c.q);
    hide LevelOk, LevelsOk, EngineOk, Groups;
    while |levels[|levels| - 1]| > 1
      invariant |levels| > 0 && |levels[|levels| - 1]| > 0
      invariant LevelsOk(levels, points, c.q)
      decreases |levels[|levels| - 1]|
    {
      var top := |levels| - 1;
      LevelOf(levels, top, points, c.q);
      var next := BuildLevel(c, levels[top], Groups(points, top));
      GroupsUp(points, top);
      LevelSize(next, Groups(points, top + 1), c.q);
      LevelAdded(levels, next, points, c.q);
      levels := levels + [next];
    }
  }

  /** prod (X - root) over Z_q. */
  method PolyFromRoots(c: Config, roots: seq<int>) returns (p: seq<int>)
    requires EngineOk(c)
    ensures p == Norm(Vanish(roots), c.q)
  {
    if |roots| == 0 {
      NormVanishEmpty(c.q);
      return [1];
    }
    var tree := PolyBuildProductTree(c, roots);
    TreeTop(tree, roots, c.q);
    p := tree[|tree| - 1][0];
  }

  // ---- evaluation by remainder descent ----

  /** rem stands for p on the points of a group: same values, few enough coefficients. */
  ghost predicate Stands(rem: seq<int>, g: seq<int>, p: seq<int>, q: int)
    requires q > 0
  {
    Canon(rem, q) && (|rem| <= |g| || |rem| == 1)
    && forall k :: 0 <= k < |g| ==> Cong(Eval(rem, g[k]), Eval(p, g[k]), q)
  }

  ghost predicate RemaindersOk(rems: seq<seq<int>>, gs: seq<seq<int>>, p: seq<int>, q: int)
    requires q > 0
  {
    |rems| == |gs| && forall i :: 0 <= i < |rems| ==> Stands(rems[i], gs[i], p, q)
  }

  /** A remainder modulo a node has the dividend's values at the node's points. */
  lemma RemainderValue(p: seq<int>, xs: seq<int>, quo: seq<int>, r: seq<int>, k: nat, q: int)
    requires q > 1 && k < |xs| && DividesInto(p, Norm(Vanish(xs), q), quo, r, q)
    ensures Cong(Eval(r, xs[k]), Eval(p, xs[k]), q)
  {
    hide Norm, Vanish, Mul, Add, Eval, PCong, Cong;
    var v, x := Norm(Vanish(xs), q), xs[k];
    PCongEval(p, Add(Mul(v, quo), r), x, q);
    EvalAdd(Mul(v, quo), r, x);
    EvalMul(v, quo, x);
    NodeRoot(xs, k, q);
    RootTerm(Eval(v, x), Eval(quo, x), Eval(r, x), Eval(p, x), Eval(Mul(v, quo), x), q);
  }

  lemma RootTerm(v: int, t: int, r: int, p: int, m: int, q: int)
    requires q > 0 && Cong(v, 0, q) && m == v * t && Cong(p, m + r, q)
    ensures Cong(r, p, q)
  {
    CongScale(v, 0, t, q);
    CongAdd(m, 0, r, r, q);
  }

  /** One division on the way down. */
  method Descend(rem: seq<int>, node: seq<int>, q: int, ghost g: seq<int>, ghost parent: seq<int>, ghost p: seq<int>)
    returns (r: seq<int>)
    requires q > 1 && node == Norm(Vanish(g), q)
    requires forall k :: 0 <= k < |parent| ==> Cong(Eval(rem, parent[k]), Eval(p, parent[k]), q)
    requires forall k :: 0 <= k < |g| ==> g[k] in parent
    ensures Stands(r, g, p, q)
  {
    NormVanishShape(g, q);
    hide Norm, Vanish, Eval, Canon, DividesInto;
    var res, quo := PolyModMonic(rem, node, q);
    r := res.value;
    forall k | 0 <= k < |g| ensures Cong(Eval(r, g[k]), Eval(p, g[k]), q) {
      RemainderValue(rem, g, quo, r, k, q);
      var j :| 0 <= j < |parent| && parent[j] == g[k];
      assert Cong(Eval(rem, parent[j]), Eval(p, parent[j]), q);
    }
  }

  /** One level of the descent. */
  method DescendLevel(rems: seq<seq<int>>, nodes: seq<seq<int>>, q: int, ghost gs: seq<seq<int>>, ghost p: seq<int>)
    returns (children: seq<seq<int>>)
    requires q > 1 && LevelOk(nodes, gs, q) && RemaindersOk(rems, PairUp(gs), p, q)
    ensures RemaindersOk(children, gs, p, q)
  {
    hide Norm, Vanish, Eval, Cong, Canon;
    children := seq(|nodes|, _ => []);
    for i := 0 to |rems|
      invariant |children| == |nodes|
      invariant forall k :: 0 <= k < |nodes| && k < 2 * i ==> Stands(children[k], gs[k], p, q)
    {
      var left := 2 * i;
      assert Stands(rems[i], PairUp(gs)[i], p, q);
      var r := Descend(rems[i], nodes[left], q, gs[left], PairUp(gs)[i], p);
      children := children[left := r];
      if left + 1 < |children| {
        r := Descend(rems[i], nodes[left + 1], q, gs[left + 1], PairUp(gs)[i], p);
        children := children[left + 1 := r];
      }
    }
  }

  /** At a leaf the remainder is the value. */
  lemma LeafValue(rem: seq<int>, x: int, p: seq<int>, q: int)
    requires q > 0 && Stands(rem, [x], p, q)
    ensures |rem| == 1 && rem[0] % q == Eval(p, x) % q
  {
    assert Cong(Eval(rem, [x][0]), Eval(p, [x][0]), q);
    assert rem == [rem[0]] + [];
    EvalCons(rem[0], [], x);
    assert Eval([], x) == 0;
  }

  ghost predicate Evaluated(values: seq<int>, coeffs: seq<int>, points: seq<int>, q: int)
    requires q > 0
  {
    |values| == |points| && forall i :: 0 <= i < |points| ==> values[i] == Eval(coeffs, points[i]) % q
  }

  /** All values at once; the result is that of Horner's rule at every point. */
  method PolyEvalBatchWithProductTree(coeffs: seq<int>, levels: seq<seq<seq<int>>>, n: nat, q: int,
                                      ghost points: seq<int>) returns (res: Result<seq<int>>)
    requires q > 1 && TreeOk(levels, points, q)
    ensures res.Ok? <==> n == 0 || |coeffs| == 0 || n == |points|
    ensures res.Ok? && n == |points| ==> Evaluated(res.value, coeffs, points, q)
    ensures res.Ok? ==> |res.value| == n && (|coeffs| == 0 ==> forall i :: 0 <= i < n ==> res.value[i] == 0)
  {
    var result := Zeros(n);
    ModSmall(0, q);
    if n == 0 { return Ok(result); }
    if |coeffs| == 0 { return Ok(result); }
    if |levels| > 0 { LevelOf(levels, 0, points, q); }
    if |levels| == 0 || |levels[0]| != n { return Err("poly_eval_batch_with_product_tree: bad tree"); }
    result := DescendTree(coeffs, levels, q, points);
    res := Ok(result);
  }

  lemma SameValues(p: seq<int>, points: seq<int>, q: int)
    requires q > 0
    ensures forall k :: 0 <= k < |points| ==> Cong(Eval(p, points[k]), Eval(p, points[k]), q)
  {
  }

  lemma TreeLevels(levels: seq<seq<seq<int>>>, points: seq<int>, q: int)
    requires q > 0 && TreeOk(levels, points, q)
    ensures LevelsOk(levels, points, q)
  {
  }

  lemma RemaindersOne(rem: seq<int>, g: seq<int>, p: seq<int>, q: int)
    requires q > 0 && Stands(rem, g, p, q)
    ensures RemaindersOk([rem], [g], p, q)
  {
  }

  /** From the root to the leaves. */
  method DescendTree(coeffs: seq<int>, levels: seq<seq<seq<int>>>, q: int, ghost points: seq<int>)
    returns (result: seq<int>)
    requires q > 1 && TreeOk(levels, points, q) && |levels| > 0
    ensures Evaluated(result, coeffs, points, q)
  {
    hide *;
    var top := |levels| - 1;
    TreeTop(levels, points, q);
    TreeLevels(levels, points, q);
    SameValues(coeffs, points, q);
    var rem := Descend(coeffs, levels[top][0], q, points, points, coeffs);
    var rems := [rem];
    RemaindersOne(rem, points, coeffs, q);
    var level := top;
    while level > 0
      invariant 0 <= level <= top
      invariant RemaindersOk(rems, Groups(points, level), coeffs, q)
    {
      GroupsUp(points, level - 1);
      LevelOf(levels, level - 1, points, q);
      rems := DescendLevel(rems, levels[level - 1], q, Groups(points, level - 1), coeffs);
      level := level - 1;
    }
    result := CollectLeaves(rems, |levels[0]|, q, points, coeffs);
  }

  method CollectLeaves(rems: seq<seq<int>>, n: nat, q: int, ghost points: seq<int>, ghost coeffs: seq<int>)
    returns (result: seq<int>)
    requires q > 0 && n == |points| && RemaindersOk(rems, Groups(points, 0), coeffs, q)
    ensures Evaluated(result, coeffs, points, q)
  {
    result := Zeros(n);
    for i := 0 to n
      invariant |result| == n
      invariant forall k :: 0 <= k < i ==> result[k] == Eval(coeffs, points[k]) % q
    {
      assert Stands(rems[i], Groups(points, 0)[i], coeffs, q);
      LeafValue(rems[i], points[i], coeffs, q);
      if |rems[i]| > 0 {
        result := result[i := rems[i][0]];
        result := result[i := result[i] % q];
      }
    }
  }

  // ---- the other routes and the dispatcher ----

  method PolyEvalBatchHorner(coeffs: seq<int>, points: seq<int>, q: int) returns (result: seq<int>)
    requires q > 0
    ensures Evaluated(result, coeffs, points, q)
  {
    result := Zeros(|points|);
    ModSmall(0, q);
    if |points| == 0 || |coeffs| == 0 { return; }
    for i := 0 to |points|
      invariant |result| == |points|
      invariant forall k :: 0 <= k < i ==> result[k] == Eval(coeffs, points[k]) % q
    {
      var v := PolyEval(coeffs, points[i], q);
      result := result[i := v];
    }
  }

  /** The public points of OPA and PSI: the NTT domain when there is one, 1, 2, ..., n otherwise. */
  function PublicPoints(c: Config, n: nat): (xs: seq<int>)
    requires c.q > 1
    ensures |xs| == n
  {
    if Supported(c, n) then DomainPoints(c, n) else seq(n, i => i + 1)
  }

  method PublicEvalPoints(c: Config, n: nat) returns (alpha: seq<int>)
    requires EngineOk(c)
    ensures alpha == PublicPoints(c, n) && |alpha| == n
    ensures forall k :: 0 <= k < n ==>
      alpha[k] == if Supported(c, n) then Pow(Pow(c.g, Exponent(c.q, n)), k) % c.q else k + 1
  {
    if Supported(c, n) {
      ChecksDown(c, Log2(n), c.maxLog);
      var points := NttDomainPoints(c, n);
      alpha := points.value;
    } else {
      alpha := Zeros(n);
      for i := 0 to n
        invariant |alpha| == n
        invariant forall k :: 0 <= k < i ==> alpha[k] == k + 1
      {
        alpha := alpha[i := i + 1];
      }
    }
  }

  method IsPublicEvalPoints(c: Config, points: seq<int>) returns (b: bool)
    requires EngineOk(c)
    ensures b <==> points == PublicPoints(c, |points|)
  {
    var public := PublicEvalPoints(c, |points|);
    for i := 0 to |points|
      invariant forall k :: 0 <= k < i ==> points[k] == public[k]
    {
      if points[i] != public[i] { return false; }
    }
    return true;
  }

  method PolyEvalBatchProductTree(c: Config, coeffs: seq<int>, points: seq<int>) returns (result: seq<int>)
    requires EngineOk(c)
    ensures Evaluated(result, coeffs, points, c.q)
  {
    if |points| == 0 { return []; }
    var public := IsPublicEvalPoints(c, points);
    var tree;
    if public {
      var alpha := PublicEvalPoints(c, |points|);
      tree := PolyBuildProductTree(c, alpha);
    } else {
      tree := PolyBuildProductTree(c, points);
    }
    var res := PolyEvalBatchWithProductTree(coeffs, tree, |points|, c.q, points);
    result := res.value;
  }

  /** When the override insists on the NTT, the points must be its domain and the polynomial must fit. */
  ghost predicate AutoAllowed(c: Config, coeffs: seq<int>, points: seq<int>)
    requires c.q > 1
  {
    c.evalMethod == UseNtt ==>
      points == PublicPoints(c, |points|) && Supported(c, |points|) && |coeffs| <= |points|
  }

  /** Whichever route is taken the answer is the same, entry by entry. */
  method PolyEvalBatchAuto(c: Config, coeffs: seq<int>, points: seq<int>) returns (res: Result<seq<int>>)
    requires EngineOk(c)
    ensures res.Ok? <==> AutoAllowed(c, coeffs, points)
    ensures res.Ok? ==> Evaluated(res.value, coeffs, points, c.q)
  {
    if Supported(c, |points|) { ChecksDown(c, Log2(|points|), c.maxLog); }
    hide EngineOk, RootChecks, Eval, Supported;
    QIsPrime(c);
    FieldIsOk(c);
    var public := IsPublicEvalPoints(c, points);
    var values;
    if c.evalMethod == UseNtt {
      if !public { return Err("CG_POLY_EVAL_METHOD=ntt requires public NTT points"); }
      res := PolyEvalBatchNtt(c, coeffs, |points|);
      return;
    }
    if c.evalMethod == UseHorner {
      values := PolyEvalBatchHorner(coeffs, points, c.q);
      return Ok(values);
    }
    if c.evalMethod == UseProductTree {
      values := PolyEvalBatchProductTree(c, coeffs, points);
      return Ok(values);
    }
    if Supported(c, |points|) && |coeffs| <= |points| && public {
      res := PolyEvalBatchNtt(c, coeffs, |points|);
      return;
    }
    if |points| <= c.hornerMax {
      values := PolyEvalBatchHorner(coeffs, points, c.q);
      return Ok(values);
    }
    values := PolyEvalBatchProductTree(c, coeffs, points);
    res := Ok(values);
  }

  lemma FieldIsOk(c: Config)
    requires EngineOk(c)
    ensures FieldOk(c)
  {
  }
}
