/** The runtime configuration of the polynomial engine and the roots of unity it computes. */
module Engine {
  import opened ModArith
  import opened Results
  import opened Dft

  /** The CG_POLY_EVAL_METHOD override; any other text means Auto. */
  datatype EvalMethod = Auto | UseNtt | UseHorner | UseProductTree

  /** q is the plaintext modulus. `ntt` holds when the runtime switch is on and q is the NTT prime, whose
      domains are the powers of two up to 2^maxLog; g is the base the program raises to (q-1)/n. */
  datatype Config = Config(q: int, g: int, ntt: bool, maxLog: nat, nttThreshold: nat, hornerMax: nat,
                           coeffThreshold: nat, evalMethod: EvalMethod, maxItems: nat)

  predicate IsPow2(n: nat) {
    n == 1 || (n > 1 && n % 2 == 0 && IsPow2(n / 2))
  }

  function Log2(n: nat): (e: nat)
    requires IsPow2(n)
    ensures Pow2(e) == n
  {
    if n == 1 then 0 else Log2(n / 2) + 1
  }

  lemma {:induction false} Pow2IsPow2(e: nat)
    ensures IsPow2(Pow2(e)) && Log2(Pow2(e)) == e
  {
    if e > 0 {
      Pow2IsPow2(e - 1);
      assert Pow2(e) / 2 == Pow2(e - 1);
    }
  }

  predicate Supported(c: Config, n: nat) {
    c.ntt && IsPow2(n) && Log2(n) <= c.maxLog
  }

  /** The domains are the powers of two up to 2^maxLog, when the NTT is on. */
  lemma {:induction false} SupportedMeans(c: Config, n: nat)
    ensures Supported(c, n) <==> c.ntt && exists e: nat :: e <= c.maxLog && n == Pow2(e)
  {
    if IsPow2(n) { assert Pow2(Log2(n)) == n; }
    if e: nat :| e <= c.maxLog && n == Pow2(e) { Pow2IsPow2(e); }
  }

  /** Standing hypotheses on the field: q is prime, and 2^maxLog divides q - 1 when the NTT is on. */
  ghost predicate FieldOk(c: Config) {
    Prime(c.q) && (c.ntt ==> (c.q - 1) % Pow2(c.maxLog) == 0)
  }

  /** The exponent of `ntt_primitive_root`: (q-1)/n, rounded down where n does not divide. */
  function Exponent(q: int, n: nat): (e: nat)
    requires q > 1 && n > 0
    ensures e * n <= q - 1 < e * n + n
  {
    var e := (q - 1) / n;
    assert q - 1 == e * n + (q - 1) % n;
    assert e >= 0 by { QuotientSign(e, n); }
    e
  }

  lemma QuotientSign(e: int, n: int)
    requires n > 0
    ensures e < 0 ==> e * n <= -n
  {
  }

  /** The root of order 2^t as `ntt_primitive_root` computes it. */
  function RootAt(c: Config, t: nat): int
    requires c.q > 1
  {
    if t == 0 then 1 else Pow(c.g, Exponent(c.q, Pow2(t))) % c.q
  }

  /** The two runtime checks on that root: root^n is 1 and root^(n/2) is not. */
  predicate RootChecks(c: Config, t: nat)
    requires c.q > 1
  {
    t == 0 || (Pow(RootAt(c, t), Pow2(t)) % c.q == 1 && Pow(RootAt(c, t), Pow2(t - 1)) % c.q != 1)
  }

  function PrimitiveRoot(c: Config, n: nat): Result<int>
    requires c.q > 1
  {
    if !Supported(c, n) then Err("ntt_primitive_root: unsupported q or domain size")
    else if n == 1 then Ok(1)
    else
      var root := Pow(c.g, Exponent(c.q, n)) % c.q;
      if Pow(root, n) % c.q != 1 then Err("ntt_primitive_root: root order check failed")
      else if Pow(root, n / 2) % c.q == 1 then Err("ntt_primitive_root: non-primitive root")
      else Ok(root)
  }

  lemma PrimitiveRootMeaning(c: Config, n: nat)
    requires c.q > 1 && Supported(c, n)
    ensures PrimitiveRoot(c, n).Ok? <==> RootChecks(c, Log2(n))
    ensures PrimitiveRoot(c, n).Ok? ==> PrimitiveRoot(c, n).value == RootAt(c, Log2(n))
  {
    if n > 1 {
      assert n / 2 == Pow2(Log2(n) - 1);
    }
  }

  /** Powers of the root are powers of the base raised to (q-1)/n, as the program computes it. */
  lemma RootIsPower(c: Config, n: nat, k: nat)
    requires c.q > 1 && Supported(c, n) && k < n
    ensures Cong(Pow(RootAt(c, Log2(n)), k), Pow(Pow(c.g, Exponent(c.q, n)), k), c.q)
  {
    if n > 1 {
      var b := Pow(c.g, Exponent(c.q, n));
      CongMod(b, c.q);
      PowCong(RootAt(c, Log2(n)), b, k, c.q);
    }
  }

  /** The engine works: every check the NTT can run into passes on the largest domain. */
  ghost predicate EngineOk(c: Config) {
    FieldOk(c) && (c.ntt ==> RootChecks(c, c.maxLog))
  }

  function RootTable(c: Config, e: nat): (rt: seq<int>)
    requires c.q > 1
    ensures |rt| == e + 1 && forall t :: 0 <= t <= e ==> rt[t] == RootAt(c, t)
  {
    seq(e + 1, t requires 0 <= t <= e => RootAt(c, t))
  }

  lemma DivisibleDown(n: int, t: nat, e: nat)
    requires t <= e && n % Pow2(e) == 0
    ensures n % Pow2(t) == 0
  {
    Pow2Add(e - t, t);
    var k := n / Pow2(e);
    assert n == Pow2(e) * k;
    ProductMultiple(Pow2(e - t), Pow2(t), k);
  }

  lemma ProductMultiple(a: int, b: int, k: int)
    requires b > 0
    ensures (a * b * k) % b == 0
  {
    assert a * b * k == (a * k) * b + 0;
    ModUnique(a * b * k, a * k, 0, b);
  }

  /** g^((q-1)/2^t) is the square of g^((q-1)/2^(t+1)). */
  lemma RootSquare(c: Config, t: nat)
    requires c.q > 1 && 1 <= t && (c.q - 1) % Pow2(t + 1) == 0
    ensures Cong(RootAt(c, t + 1) * RootAt(c, t + 1), RootAt(c, t), c.q)
  {
    var m := (c.q - 1) / Pow2(t + 1);
    assert c.q - 1 == m * Pow2(t + 1) == (2 * m) * Pow2(t);
    ModUnique(c.q - 1, 2 * m, 0, Pow2(t));
    PowAdd(c.g, m, m);
    CongMod(Pow(c.g, m), c.q);
    CongMod(Pow(c.g, 2 * m), c.q);
    CongMul(RootAt(c, t + 1), Pow(c.g, m), RootAt(c, t + 1), Pow(c.g, m), c.q);
  }

  /** Once the checks pass for the domain 2^e they pass for every smaller one. */
  lemma {:induction false} ChecksDown(c: Config, t: nat, e: nat)
    requires FieldOk(c) && c.ntt && t <= e <= c.maxLog && RootChecks(c, e)
    ensures RootChecks(c, t)
    decreases e - t
  {
    if 0 < t < e {
      ChecksDown(c, t + 1, e);
      DivisibleDown(c.q - 1, t + 1, c.maxLog);
      RootSquare(c, t);
      SquarePower(RootAt(c, t + 1), RootAt(c, t), Pow2(t), c.q);
      SquarePower(RootAt(c, t + 1), RootAt(c, t), Pow2(t - 1), c.q);
      assert Pow2(t + 1) == 2 * Pow2(t) && Pow2(t) == 2 * Pow2(t - 1);
    }
  }

  /** In a prime field a square root of 1 that is not 1 is -1. */
  lemma MinusOne(r: int, q: int)
    requires Prime(q) && (r * r) % q == 1 && r % q != 1
    ensures Cong(r, -1, q)
  {
    ModSmall(1, q);
    ModSmall(0, q);
    CongSub(r * r, 1, 1, 1, q);
    assert (r - 1) * (r + 1) == r * r - 1;
    EuclidLemma(r - 1, r + 1, q);
    CongDiff(r, 1, q);
    CongDiff(r, -1, q);
    assert r - (-1) == r + 1;
  }

  /** The checks the program makes are all the transform needs of its roots. */
  lemma TableIsRoots(c: Config, e: nat)
    requires FieldOk(c) && c.ntt && e <= c.maxLog && RootChecks(c, e)
    ensures Roots(RootTable(c, e), c.q)
  {
    var rt := RootTable(c, e);
    if e >= 1 {
      ChecksDown(c, 1, e);
      var r := RootAt(c, 1);
      assert Pow2(1) == 2 * Pow2(0);
      assert Pow(r, 1) == r * Pow(r, 0) && Pow(r, 2) == r * Pow(r, 1);
      MinusOne(r, c.q);
    }
    forall t | 0 <= t < e ensures Cong(rt[t + 1] * rt[t + 1], rt[t], c.q) {
      if t == 0 {
        CongMul(rt[1], -1, rt[1], -1, c.q);
      } else {
        DivisibleDown(c.q - 1, t + 1, c.maxLog);
        RootSquare(c, t);
      }
    }
  }

  /** The roots `mod_inverse` gives for the inverse transform. */
  function InverseTable(c: Config, e: nat): (ir: seq<int>)
    requires c.q > 1
    ensures |ir| == e + 1 && forall t :: 0 <= t <= e ==> ir[t] == Inv(RootAt(c, t), c.q)
  {
    seq(e + 1, t requires 0 <= t <= e => Inv(RootAt(c, t), c.q))
  }

  lemma InverseUnique(a: int, b: int, d: int, q: int)
    requires q > 0 && Cong(a * b, 1, q) && Cong(a * d, 1, q)
    ensures Cong(b, d, q)
  {
    CongScale(a * b, 1, d, q);
    CongScale(a * d, 1, b, q);
    assert a * b * d == a * d * b;
  }

  lemma UnitIsNonzero(a: int, b: int, q: int)
    requires q > 1 && Cong(a * b, 1, q)
    ensures a % q != 0
  {
    ModSmall(1, q);
    ModSmall(0, q);
    if a % q == 0 {
      CongScale(a, 0, b, q);
      assert false;
    }
  }

  lemma RootNonzero(rt: seq<int>, t: nat, q: int)
    requires q > 1 && t < |rt| && Roots(rt, q)
    ensures rt[t] % q != 0
  {
    RootPower(rt, t, q);
    var n := Pow2(t);
    assert Pow(rt[t], n) == rt[t] * Pow(rt[t], n - 1);
    UnitIsNonzero(rt[t], Pow(rt[t], n - 1), q);
  }

  lemma TablesInverse(c: Config, e: nat)
    requires FieldOk(c) && c.ntt && e <= c.maxLog && RootChecks(c, e)
    ensures InverseRoots(RootTable(c, e), InverseTable(c, e), c.q)
    ensures InverseRoots(InverseTable(c, e), RootTable(c, e), c.q)
  {
    var rt, ir := RootTable(c, e), InverseTable(c, e);
    TableIsRoots(c, e);
    ModSmall(1, c.q);
    forall t | 0 <= t <= e ensures Cong(rt[t] * ir[t], 1, c.q) && Cong(ir[t] * rt[t], 1, c.q) {
      RootNonzero(rt, t, c.q);
      InvCorrect(rt[t], c.q);
    }
    InverseOfRoots(rt, ir, c.q);
  }

  lemma InverseOfRoots(rt: seq<int>, ir: seq<int>, q: int)
    requires q > 0 && Roots(rt, q) && |rt| == |ir|
    requires forall t :: 0 <= t < |rt| ==> Cong(rt[t] * ir[t], 1, q)
    ensures Roots(ir, q)
  {
    CongScale(rt[0], 1, ir[0], q);
    assert Cong(rt[0] * ir[0], 1, q);
    if |rt| >= 2 {
      CongScale(rt[1], -1, -1, q);
      assert Cong(rt[1] * ir[1], 1, q);
      InverseUnique(rt[1], ir[1], -1, q);
    }
    forall t | 0 <= t < |ir| - 1 ensures Cong(ir[t + 1] * ir[t + 1], ir[t], q) {
      assert Cong(rt[t + 1] * ir[t + 1], 1, q) && Cong(rt[t] * ir[t], 1, q);
      assert Cong(rt[t + 1] * rt[t + 1], rt[t], q);
      SquareOfInverse(rt[t + 1], ir[t + 1], rt[t], ir[t], q);
    }
  }

  lemma SquareOfInverse(r: int, i: int, r2: int, i2: int, q: int)
    requires q > 0 && Cong(r * i, 1, q) && Cong(r * r, r2, q) && Cong(r2 * i2, 1, q)
    ensures Cong(i * i, i2, q)
  {
    CongMul(r * i, 1, r * i, 1, q);
    CongScale(r * r, r2, i * i, q);
    MulSwap(r, i, r, i);
    InverseUnique(r2, i * i, i2, q);
  }

  /** The length of a supported domain is invertible. */
  lemma {:induction false} LengthInvertible(e: nat, q: int)
    requires Prime(q) && !Cong(1, -1, q)
    ensures Pow2(e) % q != 0
  {
    ModSmall(1, q);
    if e > 0 {
      LengthInvertible(e - 1, q);
      CongDiff(1, -1, q);
      if Pow2(e) % q == 0 {
        EuclidLemma(2, Pow2(e - 1), q);
        assert false;
      }
    }
  }

  /** The hypotheses can be met: q = 17 with base 3 and domains up to 16. */
  lemma SmallEngine(c: Config)
    requires c.q == 17 && c.g == 3 && c.ntt && c.maxLog == 4
    ensures EngineOk(c)
  {
    assert Pow2(1) == 2 && Pow2(2) == 4 && Pow2(3) == 8 && Pow2(4) == 16;
    assert Pow(3, 1) == 3 * Pow(3, 0) && Pow(3, 2) == 3 * Pow(3, 1) == 9;
    PowMul(3, 2, 2);
    PowMul(3, 4, 2);
    PowMul(3, 8, 2);
    assert Pow(9, 1) == 9 * Pow(9, 0) && Pow(9, 2) == 9 * Pow(9, 1) == 81;
    assert Pow(81, 1) == 81 * Pow(81, 0) && Pow(81, 2) == 81 * Pow(81, 1) == 6561;
    assert Pow(6561, 1) == 6561 * Pow(6561, 0) && Pow(6561, 2) == 6561 * Pow(6561, 1) == 43046721;
    assert RootAt(c, 4) == 3;
    SeventeenIsPrime();
  }

  lemma SeventeenIsPrime()
    ensures Prime(17)
  {
    forall d | 1 < d < 17 ensures 17 % d != 0 {
      assert d == 2 || d == 3 || d == 4 || d == 5 || d == 6 || d == 7 || d == 8 || d == 9 || d == 10 || d == 11
          || d == 12 || d == 13 || d == 14 || d == 15 || d == 16;
    }
  }
}
