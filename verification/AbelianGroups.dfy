/** Commutative groups given by their operations on a carrier that may hold other things too. */
module AbelianGroups {

  datatype Grp<!T> = Grp(has: T -> bool, op: (T, T) -> T, inv: T -> T, one: T)

  /** Always true: a law is applied only at the elements a proof names with one of these. */
  predicate At<T>(x: T) { true }

  predicate At2<T>(x: T, y: T) { true }

  predicate At3<T>(x: T, y: T, z: T) { true }

  ghost predicate Closed<T(!new)>(g: Grp<T>) {
    && g.has(g.one) && (forall x {:trigger At(x)} :: At(x) && g.has(x) ==> g.has(g.inv(x)))
    && forall x, y {:trigger At2(x, y)} :: At2(x, y) && g.has(x) && g.has(y) ==> g.has(g.op(x, y))
  }

  ghost predicate Commutative<T(!new)>(g: Grp<T>) {
    forall x, y {:trigger At2(x, y)} :: At2(x, y) && g.has(x) && g.has(y) ==> g.op(x, y) == g.op(y, x)
  }

  ghost predicate Associative<T(!new)>(g: Grp<T>) {
    forall x, y, z {:trigger At3(x, y, z)} :: At3(x, y, z) && g.has(x) && g.has(y) && g.has(z) ==>
      g.op(g.op(x, y), z) == g.op(x, g.op(y, z))
  }

  ghost predicate Cancels<T(!new)>(g: Grp<T>) {
    forall x {:trigger At(x)} :: At(x) && g.has(x) ==> g.op(g.one, x) == x && g.op(x, g.inv(x)) == g.one
  }

  ghost predicate Group<T(!new)>(g: Grp<T>) {
    Closed(g) && Commutative(g) && Associative(g) && Cancels(g)
  }

  lemma Op2<T(!new)>(g: Grp<T>, x: T, y: T)
    requires Group(g) && g.has(x) && g.has(y)
    ensures g.has(g.op(x, y)) && g.op(x, y) == g.op(y, x) && g.has(g.inv(x))
  {
    assert At2(x, y) && At(x);
  }

  lemma Assoc<T(!new)>(g: Grp<T>, x: T, y: T, z: T)
    requires Group(g) && g.has(x) && g.has(y) && g.has(z)
    ensures g.op(g.op(x, y), z) == g.op(x, g.op(y, z))
  {
    assert At3(x, y, z);
  }

  lemma One<T(!new)>(g: Grp<T>, x: T)
    requires Group(g) && g.has(x)
    ensures g.has(g.one) && g.op(g.one, x) == x && g.op(x, g.one) == x
    ensures g.has(g.inv(x)) && g.op(x, g.inv(x)) == g.one && g.op(g.inv(x), x) == g.one
  {
    assert At(x);
    Op2(g, x, g.inv(x));
    Op2(g, g.one, x);
  }

  /** (a b)(c d) = (a c)(b d). */
  lemma Interchange<T(!new)>(g: Grp<T>, a: T, b: T, c: T, d: T)
    requires Group(g) && g.has(a) && g.has(b) && g.has(c) && g.has(d)
    ensures g.op(g.op(a, b), g.op(c, d)) == g.op(g.op(a, c), g.op(b, d))
  {
    hide Group;
    Op2(g, c, d);
    Op2(g, b, c);
    Op2(g, b, d);
    Assoc(g, a, b, g.op(c, d));
    Assoc(g, b, c, d);
    Assoc(g, c, b, d);
    Assoc(g, a, c, g.op(b, d));
  }

  /** (a b) c = (a c) b. */
  lemma SwapLast<T(!new)>(g: Grp<T>, a: T, b: T, c: T)
    requires Group(g) && g.has(a) && g.has(b) && g.has(c)
    ensures g.op(g.op(a, b), c) == g.op(g.op(a, c), b)
  {
    hide Group;
    Op2(g, b, c);
    Assoc(g, a, b, c);
    Assoc(g, a, c, b);
  }

  /** (a b) / b = a. */
  lemma Undo<T(!new)>(g: Grp<T>, a: T, b: T)
    requires Group(g) && g.has(a) && g.has(b)
    ensures g.op(g.op(a, b), g.inv(b)) == a && g.op(g.op(b, a), g.inv(b)) == a
  {
    hide Group;
    One(g, a);
    One(g, b);
    Op2(g, a, b);
    Assoc(g, a, b, g.inv(b));
  }

  lemma CancelLeft<T(!new)>(g: Grp<T>, a: T, b: T, c: T)
    requires Group(g) && g.has(a) && g.has(b) && g.has(c) && g.op(a, b) == g.op(a, c)
    ensures b == c
  {
    Undo(g, b, a);
    Undo(g, c, a);
  }

  // ---- powers ----

  function Pw<T>(g: Grp<T>, x: T, n: nat): T {
    if n == 0 then g.one else g.op(x, Pw(g, x, n - 1))
  }

  lemma {:induction false} PwHas<T(!new)>(g: Grp<T>, x: T, n: nat)
    requires Group(g) && g.has(x)
    ensures g.has(Pw(g, x, n))
  {
    hide Group;
    if n == 0 {
      One(g, x);
    } else {
      PwHas(g, x, n - 1);
      Op2(g, x, Pw(g, x, n - 1));
    }
  }

  lemma {:induction false} PwAdd<T(!new)>(g: Grp<T>, x: T, m: nat, n: nat)
    requires Group(g) && g.has(x)
    ensures Pw(g, x, m + n) == g.op(Pw(g, x, m), Pw(g, x, n))
  {
    hide Group;
    PwHas(g, x, n);
    if m == 0 {
      One(g, Pw(g, x, n));
    } else {
      PwHas(g, x, m - 1);
      PwAdd(g, x, m - 1, n);
      Assoc(g, x, Pw(g, x, m - 1), Pw(g, x, n));
    }
  }

  lemma {:induction false} PwMul<T(!new)>(g: Grp<T>, x: T, m: nat, n: nat, mn: nat)
    requires mn == m * n && Group(g) && g.has(x)
    ensures Pw(g, Pw(g, x, m), n) == Pw(g, x, mn)
    decreases n
  {
    hide Group;
    if n > 0 {
      assert m * n == m + m * (n - 1);
      PwMul(g, x, m, n - 1, mn - m);
      PwAdd(g, x, m, mn - m);
    }
  }

  /** The product as a natural number. */
  function Prod(x: nat, y: nat): nat {
    x * y
  }

  lemma ProdIs(x: nat, y: nat)
    ensures Prod(x, y) == x * y
  {
  }

  lemma Times(m: nat, n: nat) returns (mn: nat)
    ensures mn == m * n == n * m
  {
    mn := m * n;
  }

  lemma PwSwap<T(!new)>(g: Grp<T>, x: T, m: nat, n: nat)
    requires Group(g) && g.has(x)
    ensures Pw(g, Pw(g, x, m), n) == Pw(g, Pw(g, x, n), m)
  {
    hide Group;
    var mn := Times(m, n);
    PwMul(g, x, m, n, mn);
    PwMul(g, x, n, m, mn);
  }

  lemma {:induction false} PwOp<T(!new)>(g: Grp<T>, x: T, y: T, n: nat)
    requires Group(g) && g.has(x) && g.has(y)
    ensures Pw(g, g.op(x, y), n) == g.op(Pw(g, x, n), Pw(g, y, n))
  {
    hide Group;
    if n == 0 {
      One(g, x);
      One(g, g.one);
    } else {
      PwOp(g, x, y, n - 1);
      PwHas(g, x, n - 1);
      PwHas(g, y, n - 1);
      Interchange(g, x, y, Pw(g, x, n - 1), Pw(g, y, n - 1));
    }
  }

  lemma {:induction false} PwOne<T(!new)>(g: Grp<T>, n: nat)
    requires Group(g)
    ensures Pw(g, g.one, n) == g.one && g.has(g.one)
  {
    if n > 0 {
      PwOne(g, n - 1);
      One(g, g.one);
    }
  }
}
