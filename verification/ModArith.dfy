/** Integers modulo q with a Euclidean remainder: congruence rules, powers,
    primes, Euclid's lemma and modular inverses. */
module ModArith {

  /** Two integers leave the same remainder modulo q. */
  ghost predicate Cong(a: int, b: int, q: int)
    requires q > 0
  {
    a % q == b % q
  }

  /** Equals may be substituted in a product. */
  lemma MulEq(x: int, a: int, b: int)
    requires a == b
    ensures x * a == x * b && a * x == b * x
  {
  }

  /** The only decomposition of a into a multiple of q and a remainder is the Euclidean one. */
  lemma ModUnique(a: int, k: int, r: int, q: int)
    requires q > 0 && 0 <= r < q && a == k * q + r
    ensures a % q == r && a / q == k
  {
    var d := a / q - k;
    assert d * q == r - a % q;
    assert -q < d * q < q;
    assert d == 0;
  }

  lemma CongMultiple(a: int, k: int, q: int)
    requires q > 0
    ensures (a + k * q) % q == a % q
  {
    ModUnique(a + k * q, a / q + k, a % q, q);
  }

  lemma CongQuotient(a: int, b: int, q: int) returns (k: int)
    requires q > 0 && Cong(a, b, q)
    ensures a == b + k * q
  {
    k := a / q - b / q;
  }

  lemma CongAdd(a: int, b: int, c: int, d: int, q: int)
    requires q > 0 && Cong(a, b, q) && Cong(c, d, q)
    ensures Cong(a + c, b + d, q)
  {
    var k := CongQuotient(a, b, q);
    var l := CongQuotient(c, d, q);
    assert a + c == (b + d) + (k + l) * q;
    CongMultiple(b + d, k + l, q);
  }

  lemma CongSub(a: int, b: int, c: int, d: int, q: int)
    requires q > 0 && Cong(a, b, q) && Cong(c, d, q)
    ensures Cong(a - c, b - d, q)
  {
    var k := CongQuotient(a, b, q);
    var l := CongQuotient(c, d, q);
    assert a - c == (b - d) + (k - l) * q;
    CongMultiple(b - d, k - l, q);
  }

  lemma CongScale(a: int, b: int, c: int, q: int)
    requires q > 0 && Cong(a, b, q)
    ensures Cong(a * c, b * c, q) && Cong(c * a, c * b, q)
  {
    var k := CongQuotient(a, b, q);
    assert a * c == b * c + k * q * c == b * c + (k * c) * q;
    CongMultiple(b * c, k * c, q);
    assert c * a == a * c && c * b == b * c;
  }

  lemma CongMul(a: int, b: int, c: int, d: int, q: int)
    requires q > 0 && Cong(a, b, q) && Cong(c, d, q)
    ensures Cong(a * c, b * d, q)
  {
    CongScale(a, b, c, q);
    CongScale(c, d, b, q);
  }

  lemma CongMod(a: int, q: int)
    requires q > 0
    ensures Cong(a % q, a, q) && 0 <= a % q < q
  {
    ModUnique(a % q, 0, a % q, q);
  }

  lemma ModSmall(a: int, q: int)
    requires 0 <= a < q
    ensures a % q == a
  {
    ModUnique(a, 0, a, q);
  }

  /** a and b agree modulo q exactly when q divides their difference. */
  lemma CongDiff(a: int, b: int, q: int)
    requires q > 0
    ensures Cong(a, b, q) <==> (a - b) % q == 0
  {
    ModSmall(0, q);
    if Cong(a, b, q) {
      CongSub(a, b, b, b, q);
    }
    if (a - b) % q == 0 {
      CongAdd(a - b, 0, b, b, q);
    }
  }

  function Pow(x: int, n: nat): int {
    if n == 0 then 1 else x * Pow(x, n - 1)
  }

  lemma {:induction false} PowAdd(x: int, m: nat, n: nat)
    ensures Pow(x, m + n) == Pow(x, m) * Pow(x, n)
  {
    if m > 0 {
      PowAdd(x, m - 1, n);
      MulEq(x, Pow(x, m - 1 + n), Pow(x, m - 1) * Pow(x, n));
    }
  }

  lemma {:induction false} PowMul(x: int, m: nat, n: nat)
    ensures Pow(x, m * n) == Pow(Pow(x, m), n)
  {
    if n > 0 {
      PowMul(x, m, n - 1);
      assert m * n == m + m * (n - 1);
      PowAdd(x, m, m * (n - 1));
    }
  }

  lemma PowSwap(x: int, m: nat, n: nat)
    ensures Pow(Pow(x, m), n) == Pow(Pow(x, n), m)
  {
    PowMul(x, m, n);
    PowMul(x, n, m);
    assert m * n == n * m;
  }

  lemma MulSwap(x: int, y: int, a: int, b: int)
    ensures (x * y) * (a * b) == (x * a) * (y * b)
  {
    assert (x * y) * (a * b) == x * (y * (a * b)) == x * (a * (y * b));
  }

  lemma {:induction false} PowProduct(x: int, y: int, n: nat)
    ensures Pow(x * y, n) == Pow(x, n) * Pow(y, n)
  {
    if n > 0 {
      PowProduct(x, y, n - 1);
      MulSwap(x, y, Pow(x, n - 1), Pow(y, n - 1));
    }
  }

  lemma {:induction false} PowOne(n: nat)
    ensures Pow(1, n) == 1
  {
    if n > 0 { PowOne(n - 1); }
  }

  lemma {:induction false} PowCong(x: int, y: int, n: nat, q: int)
    requires q > 0 && Cong(x, y, q)
    ensures Cong(Pow(x, n), Pow(y, n), q)
  {
    if n > 0 {
      PowCong(x, y, n - 1, q);
      CongMul(x, y, Pow(x, n - 1), Pow(y, n - 1), q);
    }
  }

  /** 2^e, the length of a transform with e butterfly stages. */
  function Pow2(e: nat): (n: nat)
    ensures n >= 1
  {
    if e == 0 then 1 else 2 * Pow2(e - 1)
  }

  lemma {:induction false} Pow2Add(d: nat, e: nat)
    ensures Pow2(d + e) == Pow2(d) * Pow2(e)
  {
    if d > 0 {
      Pow2Add(d - 1, e);
      MulEq(Pow2(e), Pow2(d), 2 * Pow2(d - 1));
    }
  }

  ghost predicate Prime(q: int) {
    q > 1 && forall d :: 1 < d < q ==> q % d != 0
  }

  /** Extended Euclid: r is the greatest common divisor, written as a combination a*x + b*y. */
  function Bezout(a: nat, b: nat): (r: (nat, int, int))
    requires a > 0
    decreases b
  {
    if b == 0 then (a, 1, 0)
    else
      var (g, x, y) := Bezout(b, a % b);
      (g, y, x - (a / b) * y)
  }

  /** The step of extended Euclid, as an identity of integers. */
  lemma BezoutStep(a: int, b: int, d: int, x: int, y: int)
    ensures b * x + (a - b * d) * y == a * y + b * (x - d * y)
  {
    assert (a - b * d) * y == a * y - b * (d * y);
    assert b * (x - d * y) == b * x - b * (d * y);
  }

  lemma DivisorOfCombination(b: int, d: int, c: int, g: int)
    requires g > 0 && b % g == 0 && c % g == 0
    ensures (b * d + c) % g == 0
  {
    ModSmall(0, g);
    CongScale(b, 0, d, g);
    CongAdd(b * d, 0, c, 0, g);
  }

  lemma {:induction false} BezoutCorrect(a: nat, b: nat)
    requires a > 0
    ensures var (g, x, y) := Bezout(a, b);
      g > 0 && a % g == 0 && b % g == 0 && g == a * x + b * y
    decreases b
  {
    if b == 0 {
      ModUnique(a, 1, 0, a);
      ModSmall(0, a);
    } else {
      var (g, x, y) := Bezout(b, a % b);
      BezoutCorrect(b, a % b);
      DivisorOfCombination(b, a / b, a % b, g);
      assert b * (a / b) + a % b == a;
      assert a - b * (a / b) == a % b;
      BezoutStep(a, b, a / b, x, y);
    }
  }

  /** What `mod_inverse` returns; it throws exactly on the multiples of the prime. */
  function Inv(a: int, q: int): int
    requires q > 1
  {
    Bezout(q, a % q).2 % q
  }

  lemma InvCorrect(a: int, q: int)
    requires Prime(q) && a % q != 0
    ensures 0 <= Inv(a, q) < q && (a * Inv(a, q)) % q == 1
  {
    hide Bezout;
    var r := a % q;
    var (g, x, y) := Bezout(q, r);
    BezoutCorrect(q, r);
    if g >= q {
      ModSmall(r, g);
      assert false;
    }
    assert g == 1;
    CongMod(y, q);
    CongMod(a, q);
    CongMul(a, r, y % q, y, q);
    CongMultiple(r * y, x, q);
    assert r * y + x * q == 1;
    ModSmall(1, q);
  }

  /** Euclid's lemma: a prime dividing a product divides a factor. */
  lemma EuclidLemma(a: int, b: int, q: int)
    requires Prime(q) && (a * b) % q == 0
    ensures a % q == 0 || b % q == 0
  {
    if a % q != 0 {
      var c := Inv(a, q);
      InvCorrect(a, q);
      ModSmall(0, q);
      ModSmall(1, q);
      CongMul(a * b, 0, c, c, q);
      CongMul(a * c, 1, b, b, q);
      assert a * c * b == a * b * c;
    }
  }
}
