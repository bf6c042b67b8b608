/** The class-group encryption scheme and the firewalls' key-mauling operations over abstract groups: Cl_G holds
    the first components and the keys, Cl_Delta the second, and in the compact variant elements of Cl_G are
    lifted before they enter Cl_Delta. */
module ClassGroup {
  import opened ModArith
  import opened AbelianGroups

  datatype Scheme<!T> = Scheme(q: nat, compact: bool, g: Grp<T>, d: Grp<T>, lift: T -> T, h: T, f: T, dlog: T -> nat)

  datatype Ct<T> = Ct(c1: T, c2: T)

  /** A precomputed pair (h^s, pk^s). */
  datatype EncZero<T> = EncZero(r: T, e: T)

  function Lift<T>(s: Scheme<T>, x: T): T {
    if s.compact then s.lift(x) else x
  }

  /** The assumptions: commutative groups, a homomorphic lift (the identity on one group when not compact), and a
      subgroup of order q generated by f in which discrete logarithms are computed. */
  ghost predicate SchemeOk<T(!new)>(s: Scheme<T>) {
    && Group(s.g) && Group(s.d) && s.q > 0 && (!s.compact ==> s.g == s.d) && LiftOk(s)
    && s.g.has(s.h) && s.d.has(s.f) && Pw(s.d, s.f, s.q) == s.d.one && DlogOk(s)
  }

  ghost predicate LiftOk<T(!new)>(s: Scheme<T>) {
    && (forall x {:trigger At(x)} :: At(x) && s.g.has(x) ==> s.d.has(Lift(s, x)))
    && forall x, y {:trigger At2(x, y)} :: At2(x, y) && s.g.has(x) && s.g.has(y) ==>
         Lift(s, s.g.op(x, y)) == s.d.op(Lift(s, x), Lift(s, y))
  }

  ghost predicate DlogOk<T(!new)>(s: Scheme<T>) {
    forall m: nat :: m < s.q ==> s.dlog(Pw(s.d, s.f, m)) == m
  }

  // ---- operations ----

  function Encrypt<T>(s: Scheme<T>, pk: T, m: nat, r: nat): Ct<T> {
    Ct(Pw(s.g, s.h, r), s.d.op(Lift(s, Pw(s.g, pk, r)), Pw(s.d, s.f, m)))
  }

  function Decrypt<T>(s: Scheme<T>, sk: nat, c: Ct<T>): nat {
    s.dlog(s.d.op(c.c2, s.d.inv(Lift(s, Pw(s.g, c.c1, sk)))))
  }

  function AddCt<T>(s: Scheme<T>, a: Ct<T>, b: Ct<T>): Ct<T> {
    Ct(s.g.op(a.c1, b.c1), s.d.op(a.c2, b.c2))
  }

  function CMult<T>(s: Scheme<T>, c: Ct<T>, a: nat): Ct<T> {
    Ct(Pw(s.g, c.c1, a), Pw(s.d, c.c2, a))
  }

  function MaulPk<T>(s: Scheme<T>, pk: T, rho: nat): T {
    s.g.op(pk, Pw(s.g, s.h, rho))
  }

  function MaulForward<T>(s: Scheme<T>, c: Ct<T>, rho: nat): Ct<T> {
    Ct(c.c1, s.d.op(c.c2, Lift(s, Pw(s.g, c.c1, rho))))
  }

  function MaulInverse<T>(s: Scheme<T>, c: Ct<T>, rho: nat): Ct<T> {
    Ct(c.c1, s.d.op(c.c2, s.d.inv(Lift(s, Pw(s.g, c.c1, rho)))))
  }

  /** The pair both firewalls and `make_enc_zero_pair` precompute; its second half is left in Cl_G. */
  function ZeroPair<T>(s: Scheme<T>, pk: T, r: nat): EncZero<T> {
    EncZero(Pw(s.g, s.h, r), Pw(s.g, pk, r))
  }

  /** Mauling and rerandomizing in one pass. */
  function MaulFwdRerand<T>(s: Scheme<T>, c: Ct<T>, rho: nat, pre: EncZero<T>): Ct<T> {
    var power := Lift(s, Pw(s.g, c.c1, rho));
    Ct(s.g.op(c.c1, pre.r), s.d.op(s.d.op(c.c2, power), pre.e))
  }

  function MaulInvRerand<T>(s: Scheme<T>, c: Ct<T>, rho: nat, pre: EncZero<T>): Ct<T> {
    var power := Lift(s, Pw(s.g, c.c1, rho));
    Ct(s.g.op(c.c1, pre.r), s.d.op(s.d.op(c.c2, s.d.inv(power)), pre.e))
  }

  // ---- the lift ----

  lemma LiftFacts<T(!new)>(s: Scheme<T>, x: T, y: T)
    requires SchemeOk(s) && s.g.has(x) && s.g.has(y)
    ensures Group(s.g) && Group(s.d) && s.d.has(Lift(s, x)) && s.d.has(Lift(s, y))
    ensures Lift(s, s.g.op(x, y)) == s.d.op(Lift(s, x), Lift(s, y)) && s.g.has(s.g.op(x, y))
  {
    assert At(x) && At(y) && At2(x, y);
    Op2(s.g, x, y);
  }

  lemma SchemeFacts<T(!new)>(s: Scheme<T>)
    requires SchemeOk(s)
    ensures Group(s.g) && Group(s.d) && s.q > 0 && s.g.has(s.h) && s.d.has(s.f) && Pw(s.d, s.f, s.q) == s.d.one
  {
  }

  lemma LiftOne<T(!new)>(s: Scheme<T>)
    requires SchemeOk(s)
    ensures Lift(s, s.g.one) == s.d.one
  {
    hide Lift;
    SchemeFacts(s);
    One(s.g, s.h);
    One(s.g, s.g.one);
    LiftFacts(s, s.g.one, s.g.one);
    One(s.d, Lift(s, s.g.one));
    CancelLeft(s.d, Lift(s, s.g.one), Lift(s, s.g.one), s.d.one);
  }

  lemma {:induction false} LiftPw<T(!new)>(s: Scheme<T>, x: T, n: nat)
    requires SchemeOk(s) && s.g.has(x)
    ensures s.g.has(Pw(s.g, x, n)) && s.d.has(Lift(s, Pw(s.g, x, n)))
    ensures Lift(s, Pw(s.g, x, n)) == Pw(s.d, Lift(s, x), n)
  {
    hide Lift, SchemeOk, Group;
    SchemeFacts(s);
    PwHas(s.g, x, n);
    LiftFacts(s, x, Pw(s.g, x, n));
    if n == 0 {
      LiftOne(s);
    } else {
      LiftPw(s, x, n - 1);
      LiftFacts(s, x, Pw(s.g, x, n - 1));
    }
  }

  // ---- what a ciphertext encrypts ----

  /** c encrypts m under the secret key k: c2 = lift(c1^k) f^m. */
  ghost predicate Encrypts<T>(s: Scheme<T>, c: Ct<T>, k: nat, m: nat) {
    s.g.has(c.c1) && c.c2 == s.d.op(Lift(s, Pw(s.g, c.c1, k)), Pw(s.d, s.f, m))
  }

  lemma Parts<T(!new)>(s: Scheme<T>, c: Ct<T>, k: nat, m: nat)
    requires SchemeOk(s) && Encrypts(s, c, k, m)
    ensures s.g.has(c.c1) && s.d.has(c.c2) && s.d.has(Pw(s.d, s.f, m)) && s.d.has(Lift(s, Pw(s.g, c.c1, k)))
    ensures Group(s.g) && Group(s.d) && c.c2 == s.d.op(Lift(s, Pw(s.g, c.c1, k)), Pw(s.d, s.f, m))
  {
    hide Lift, Group, SchemeOk;
    SchemeFacts(s);
    PwHas(s.d, s.f, m);
    LiftPw(s, c.c1, k);
    Op2(s.d, Lift(s, Pw(s.g, c.c1, k)), Pw(s.d, s.f, m));
  }

  lemma EncryptCorrect<T(!new)>(s: Scheme<T>, k: nat, m: nat, r: nat)
    requires SchemeOk(s)
    ensures Encrypts(s, Encrypt(s, Pw(s.g, s.h, k), m, r), k, m)
  {
    hide Lift, Group, SchemeOk;
    SchemeFacts(s);
    PwHas(s.g, s.h, r);
    PwSwap(s.g, s.h, k, r);
  }

  /** f has order dividing q, so its powers only depend on the residue. */
  lemma PowerResidue<T(!new)>(s: Scheme<T>, m: nat)
    requires SchemeOk(s)
    ensures Pw(s.d, s.f, m) == Pw(s.d, s.f, m % s.q)
  {
    hide Group, SchemeOk;
    SchemeFacts(s);
    var t, r := m / s.q, m % s.q;
    var qt := Times(s.q, t);
    assert m == qt + r;
    PwAdd(s.d, s.f, qt, r);
    PwMul(s.d, s.f, s.q, t, qt);
    PwOne(s.d, t);
    PwHas(s.d, s.f, r);
    One(s.d, Pw(s.d, s.f, r));
  }

  lemma DlogOf<T(!new)>(s: Scheme<T>, m: nat)
    requires SchemeOk(s)
    ensures s.dlog(Pw(s.d, s.f, m)) == m % s.q
  {
    hide Group, Pw;
    PowerResidue(s, m);
    DlogSmall(s, m % s.q);
  }

  lemma DlogSmall<T(!new)>(s: Scheme<T>, m: nat)
    requires SchemeOk(s) && m < s.q
    ensures s.dlog(Pw(s.d, s.f, m)) == m
  {
    hide Group, Pw;
  }

  lemma DecryptCorrect<T(!new)>(s: Scheme<T>, c: Ct<T>, k: nat, m: nat)
    requires SchemeOk(s) && Encrypts(s, c, k, m)
    ensures s.q > 0 && Decrypt(s, k, c) == m % s.q
  {
    hide Lift, Group, SchemeOk, Encrypts;
    SchemeFacts(s);
    Parts(s, c, k, m);
    Undo(s.d, Pw(s.d, s.f, m), Lift(s, Pw(s.g, c.c1, k)));
    DlogOf(s, m);
  }

  lemma AddCorrect<T(!new)>(s: Scheme<T>, a: Ct<T>, b: Ct<T>, k: nat, m: nat, n: nat)
    requires SchemeOk(s) && Encrypts(s, a, k, m) && Encrypts(s, b, k, n)
    ensures Encrypts(s, AddCt(s, a, b), k, m + n)
  {
    hide Lift, Group, SchemeOk;
    SchemeFacts(s);
    Parts(s, a, k, m);
    Parts(s, b, k, n);
    PwOp(s.g, a.c1, b.c1, k);
    LiftPw(s, a.c1, k);
    LiftPw(s, b.c1, k);
    LiftFacts(s, Pw(s.g, a.c1, k), Pw(s.g, b.c1, k));
    PwAdd(s.d, s.f, m, n);
    Interchange(s.d, Lift(s, Pw(s.g, a.c1, k)), Pw(s.d, s.f, m), Lift(s, Pw(s.g, b.c1, k)), Pw(s.d, s.f, n));
    Op2(s.g, a.c1, b.c1);
  }

  lemma CMultCorrect<T(!new)>(s: Scheme<T>, c: Ct<T>, k: nat, m: nat, a: nat, am: nat)
    requires am == a * m && SchemeOk(s) && Encrypts(s, c, k, m)
    ensures Encrypts(s, CMult(s, c, a), k, am)
  {
    hide Lift, Group, SchemeOk;
    SchemeFacts(s);
    Parts(s, c, k, m);
    PwOp(s.d, Lift(s, Pw(s.g, c.c1, k)), Pw(s.d, s.f, m), a);
    LiftPw(s, c.c1, k);
    LiftPw(s, Pw(s.g, c.c1, k), a);
    PwSwap(s.g, c.c1, k, a);
    PwMul(s.d, s.f, m, a, am);
    PwHas(s.g, c.c1, a);
  }

  // ---- mauling ----

  /** Mauling the public key adds rho to the secret key. */
  lemma MaulPkCorrect<T(!new)>(s: Scheme<T>, k: nat, rho: nat)
    requires SchemeOk(s)
    ensures MaulPk(s, Pw(s.g, s.h, k), rho) == Pw(s.g, s.h, k + rho)
  {
    SchemeFacts(s);
    hide SchemeOk, Group;
    PwAdd(s.g, s.h, k, rho);
  }

  /** Mauling forward moves a ciphertext to the mauled key without changing the plaintext. */
  lemma MaulForwardCorrect<T(!new)>(s: Scheme<T>, c: Ct<T>, k: nat, rho: nat, m: nat)
    requires SchemeOk(s) && Encrypts(s, c, k, m)
    ensures Encrypts(s, MaulForward(s, c, rho), k + rho, m)
  {
    hide Lift, Group, SchemeOk;
    SchemeFacts(s);
    Parts(s, c, k, m);
    LiftPw(s, c.c1, rho);
    LiftPw(s, c.c1, k);
    LiftFacts(s, Pw(s.g, c.c1, k), Pw(s.g, c.c1, rho));
    PwAdd(s.g, c.c1, k, rho);
    SwapLast(s.d, Lift(s, Pw(s.g, c.c1, k)), Pw(s.d, s.f, m), Lift(s, Pw(s.g, c.c1, rho)));
  }

  /** Mauling back undoes it. */
  lemma MaulInverseCorrect<T(!new)>(s: Scheme<T>, c: Ct<T>, k: nat, rho: nat, m: nat)
    requires SchemeOk(s) && Encrypts(s, c, k + rho, m)
    ensures Encrypts(s, MaulInverse(s, c, rho), k, m)
  {
    hide Lift, Group, SchemeOk;
    SchemeFacts(s);
    Parts(s, c, k + rho, m);
    LiftPw(s, c.c1, rho);
    LiftPw(s, c.c1, k);
    LiftFacts(s, Pw(s.g, c.c1, k), Pw(s.g, c.c1, rho));
    PwAdd(s.g, c.c1, k, rho);
    var a, b, p := Lift(s, Pw(s.g, c.c1, k)), Lift(s, Pw(s.g, c.c1, rho)), Pw(s.d, s.f, m);
    SwapLast(s.d, a, b, p);
    Op2(s.d, a, p);
    Undo(s.d, s.d.op(a, p), b);
  }

  lemma MaulRoundTrip<T(!new)>(s: Scheme<T>, c: Ct<T>, rho: nat)
    requires SchemeOk(s) && s.g.has(c.c1) && s.d.has(c.c2)
    ensures MaulInverse(s, MaulForward(s, c, rho), rho) == c
  {
    hide Lift, Group, SchemeOk;
    SchemeFacts(s);
    LiftPw(s, c.c1, rho);
    Undo(s.d, c.c2, Lift(s, Pw(s.g, c.c1, rho)));
  }

  // ---- rerandomization ----

  /** The fused form is mauling followed by adding an encryption of zero if the precomputed pair's second half is
      what its lift would be; and only then, whenever that half is an element of Cl_Delta at all. */
  lemma FusedForward<T(!new)>(s: Scheme<T>, c: Ct<T>, rho: nat, pk: T, r: nat)
    requires SchemeOk(s) && s.g.has(c.c1) && s.d.has(c.c2) && s.g.has(pk)
    ensures var fused := MaulFwdRerand(s, c, rho, ZeroPair(s, pk, r));
      var plain := AddCt(s, MaulForward(s, c, rho), Encrypt(s, pk, 0, r));
      && (Fixed(s, pk, r) ==> fused == plain)
      && (s.d.has(Pw(s.g, pk, r)) && fused == plain ==> Fixed(s, pk, r))
  {
    hide Lift, Group, SchemeOk, Pw;
    SchemeFacts(s);
    LiftPw(s, c.c1, rho);
    var power := Lift(s, Pw(s.g, c.c1, rho));
    Op2(s.d, c.c2, power);
    ZeroHalf(s, s.d.op(c.c2, power), pk, r);
  }

  lemma FusedInverse<T(!new)>(s: Scheme<T>, c: Ct<T>, rho: nat, pk: T, r: nat)
    requires SchemeOk(s) && s.g.has(c.c1) && s.d.has(c.c2) && s.g.has(pk)
    ensures var fused := MaulInvRerand(s, c, rho, ZeroPair(s, pk, r));
      var plain := AddCt(s, MaulInverse(s, c, rho), Encrypt(s, pk, 0, r));
      && (Fixed(s, pk, r) ==> fused == plain)
      && (s.d.has(Pw(s.g, pk, r)) && fused == plain ==> Fixed(s, pk, r))
  {
    hide Lift, Group, SchemeOk, Pw;
    SchemeFacts(s);
    LiftPw(s, c.c1, rho);
    var power := Lift(s, Pw(s.g, c.c1, rho));
    Op2(s.d, power, power);
    Op2(s.d, c.c2, s.d.inv(power));
    ZeroHalf(s, s.d.op(c.c2, s.d.inv(power)), pk, r);
  }

  /** pk^r enters Cl_Delta as itself. */
  predicate Fixed<T(==)>(s: Scheme<T>, pk: T, r: nat) {
    Lift(s, Pw(s.g, pk, r)) == Pw(s.g, pk, r)
  }

  /** Multiplying by the second half of the pair or of an encryption of zero. */
  lemma ZeroHalf<T(!new)>(s: Scheme<T>, m: T, pk: T, r: nat)
    requires SchemeOk(s) && s.d.has(m) && s.g.has(pk)
    ensures var unlifted, lifted := s.d.op(m, Pw(s.g, pk, r)), s.d.op(m, Encrypt(s, pk, 0, r).c2);
      && (Fixed(s, pk, r) ==> unlifted == lifted)
      && (s.d.has(Pw(s.g, pk, r)) && unlifted == lifted ==> Fixed(s, pk, r))
  {
    hide Lift, Group, SchemeOk, Pw;
    SchemeFacts(s);
    var e := Pw(s.g, pk, r);
    LiftPw(s, pk, r);
    One(s.d, Lift(s, e));
    PwZero(s.d, s.f);
    if s.d.has(e) && s.d.op(m, e) == s.d.op(m, Lift(s, e)) {
      CancelLeft(s.d, m, e, Lift(s, e));
    }
  }

  lemma PwZero<T>(g: Grp<T>, x: T)
    ensures Pw(g, x, 0) == g.one
  {
  }

  /** A ciphertext under a key has one second component per plaintext. */
  lemma SameEncryption<T>(s: Scheme<T>, c: Ct<T>, c': Ct<T>, k: nat, m: nat)
    requires Encrypts(s, c, k, m) && c'.c1 == c.c1
    ensures Encrypts(s, c', k, m) <==> c' == c
  {
  }

  /** One forward hop, from the key k to k + rho: the plaintext is kept if and only if the lift fixes the element
      that rerandomizes, as far as that element belongs to Cl_Delta. */
  lemma ForwardHop<T(!new)>(s: Scheme<T>, c: Ct<T>, k: nat, rho: nat, m: nat, r: nat)
    requires SchemeOk(s) && Encrypts(s, c, k, m)
    ensures var pk' := MaulPk(s, Pw(s.g, s.h, k), rho);
      var kept := Encrypts(s, MaulFwdRerand(s, c, rho, ZeroPair(s, pk', r)), k + rho, m);
      (Fixed(s, pk', r) ==> kept) && (s.d.has(Pw(s.g, pk', r)) ==> (kept <==> Fixed(s, pk', r)))
  {
    hide Lift, Group, SchemeOk, Encrypts, Pw, Fixed;
    SchemeFacts(s);
    Parts(s, c, k, m);
    MaulPkCorrect(s, k, rho);
    var pk := Pw(s.g, s.h, k + rho);
    PwHas(s.g, s.h, k + rho);
    FusedForward(s, c, rho, pk, r);
    MaulForwardCorrect(s, c, k, rho, m);
    EncryptCorrect(s, k + rho, 0, r);
    AddCorrect(s, MaulForward(s, c, rho), Encrypt(s, pk, 0, r), k + rho, m, 0);
    SameEncryption(s, AddCt(s, MaulForward(s, c, rho), Encrypt(s, pk, 0, r)),
                   MaulFwdRerand(s, c, rho, ZeroPair(s, pk, r)), k + rho, m);
  }

  /** One hop back, from k + rho to k. */
  lemma InverseHop<T(!new)>(s: Scheme<T>, c: Ct<T>, k: nat, rho: nat, m: nat, r: nat)
    requires SchemeOk(s) && Encrypts(s, c, k + rho, m)
    ensures var pk := Pw(s.g, s.h, k);
      var kept := Encrypts(s, MaulInvRerand(s, c, rho, ZeroPair(s, pk, r)), k, m);
      (Fixed(s, pk, r) ==> kept) && (s.d.has(Pw(s.g, pk, r)) ==> (kept <==> Fixed(s, pk, r)))
  {
    hide Lift, Group, SchemeOk, Encrypts, Pw, Fixed;
    SchemeFacts(s);
    Parts(s, c, k + rho, m);
    var pk := Pw(s.g, s.h, k);
    PwHas(s.g, s.h, k);
    FusedInverse(s, c, rho, pk, r);
    MaulInverseCorrect(s, c, k, rho, m);
    EncryptCorrect(s, k, 0, r);
    AddCorrect(s, MaulInverse(s, c, rho), Encrypt(s, pk, 0, r), k, m, 0);
    SameEncryption(s, AddCt(s, MaulInverse(s, c, rho), Encrypt(s, pk, 0, r)),
                   MaulInvRerand(s, c, rho, ZeroPair(s, pk, r)), k, m);
  }

  // ---- schemes whose lift changes nothing ----

  /** Always so unless the compact variant is used. */
  ghost predicate TrivialLift<T(!new)>(s: Scheme<T>) {
    forall x :: s.g.has(x) ==> Lift(s, x) == x
  }

  lemma NotCompactTrivial<T(!new)>(s: Scheme<T>)
    requires !s.compact
    ensures TrivialLift(s)
  {
  }

  lemma TrivialFixed<T(!new)>(s: Scheme<T>, pk: T, r: nat)
    requires SchemeOk(s) && TrivialLift(s) && s.g.has(pk)
    ensures Fixed(s, pk, r)
  {
    PwHas(s.g, pk, r);
  }

  lemma TrivialForwardHop<T(!new)>(s: Scheme<T>, c: Ct<T>, k: nat, rho: nat, m: nat, r: nat)
    requires SchemeOk(s) && TrivialLift(s) && Encrypts(s, c, k, m)
    ensures var pk' := MaulPk(s, Pw(s.g, s.h, k), rho);
      Encrypts(s, MaulFwdRerand(s, c, rho, ZeroPair(s, pk', r)), k + rho, m)
  {
    hide *;
    SchemeFacts(s);
    MaulPkCorrect(s, k, rho);
    PwHas(s.g, s.h, k + rho);
    TrivialFixed(s, MaulPk(s, Pw(s.g, s.h, k), rho), r);
    ForwardHop(s, c, k, rho, m, r);
  }

  lemma TrivialInverseHop<T(!new)>(s: Scheme<T>, c: Ct<T>, k: nat, rho: nat, m: nat, r: nat)
    requires SchemeOk(s) && TrivialLift(s) && Encrypts(s, c, k + rho, m)
    ensures Encrypts(s, MaulInvRerand(s, c, rho, ZeroPair(s, Pw(s.g, s.h, k), r)), k, m)
  {
    hide *;
    SchemeFacts(s);
    PwHas(s.g, s.h, k);
    TrivialFixed(s, Pw(s.g, s.h, k), r);
    InverseHop(s, c, k, rho, m, r);
  }

  // ---- ciphertexts with known randomness ----

  /** c is the encryption of m under the key k with randomness e: c1 = h^e and c2 = lift(h^(ek)) f^m. */
  ghost predicate Sealed<T>(s: Scheme<T>, c: Ct<T>, e: nat, k: nat, m: nat) {
    c.c1 == Pw(s.g, s.h, e) && Encrypts(s, c, k, m)
  }

  /** Key, randomness and plaintext determine the whole ciphertext. */
  lemma SealedUnique<T>(s: Scheme<T>, c: Ct<T>, c': Ct<T>, e: nat, k: nat, m: nat)
    requires Sealed(s, c, e, k, m) && Sealed(s, c', e, k, m)
    ensures c == c'
  {
  }

  /** Encryption uses exactly the randomness it is given. */
  lemma EncryptSeals<T(!new)>(s: Scheme<T>, k: nat, m: nat, r: nat)
    requires SchemeOk(s)
    ensures Sealed(s, Encrypt(s, Pw(s.g, s.h, k), m, r), r, k, m)
  {
    EncryptCorrect(s, k, m, r);
    hide SchemeOk, Encrypts;
  }

  lemma AddSeals<T(!new)>(s: Scheme<T>, a: Ct<T>, b: Ct<T>, e: nat, e': nat, k: nat, m: nat, n: nat)
    requires SchemeOk(s) && Sealed(s, a, e, k, m) && Sealed(s, b, e', k, n)
    ensures Sealed(s, AddCt(s, a, b), e + e', k, m + n)
  {
    hide SchemeOk, Encrypts, Group;
    SchemeFacts(s);
    AddCorrect(s, a, b, k, m, n);
    PwAdd(s.g, s.h, e, e');
  }

  lemma CMultSeals<T(!new)>(s: Scheme<T>, c: Ct<T>, e: nat, k: nat, m: nat, a: nat, ae: nat, am: nat)
    requires ae == a * e && am == a * m && SchemeOk(s) && Sealed(s, c, e, k, m)
    ensures Sealed(s, CMult(s, c, a), ae, k, am)
  {
    hide SchemeOk, Encrypts, Group;
    SchemeFacts(s);
    CMultCorrect(s, c, k, m, a, am);
    PwMul(s.g, s.h, e, a, ae);
  }

  /** A forward hop adds its own randomness and its exponent to the key. */
  lemma ForwardSeals<T(!new)>(s: Scheme<T>, c: Ct<T>, e: nat, k: nat, rho: nat, m: nat, r: nat)
    requires SchemeOk(s) && TrivialLift(s) && Sealed(s, c, e, k, m)
    ensures var pk' := MaulPk(s, Pw(s.g, s.h, k), rho);
      Sealed(s, MaulFwdRerand(s, c, rho, ZeroPair(s, pk', r)), e + r, k + rho, m)
  {
    hide SchemeOk, TrivialLift, Encrypts, Group, Lift, MaulPk;
    SchemeFacts(s);
    TrivialForwardHop(s, c, k, rho, m, r);
    PwAdd(s.g, s.h, e, r);
  }

  lemma InverseSeals<T(!new)>(s: Scheme<T>, c: Ct<T>, e: nat, k: nat, rho: nat, m: nat, r: nat)
    requires SchemeOk(s) && TrivialLift(s) && Sealed(s, c, e, k + rho, m)
    ensures Sealed(s, MaulInvRerand(s, c, rho, ZeroPair(s, Pw(s.g, s.h, k), r)), e + r, k, m)
  {
    hide SchemeOk, TrivialLift, Encrypts, Group, Lift;
    SchemeFacts(s);
    TrivialInverseHop(s, c, k, rho, m, r);
    PwAdd(s.g, s.h, e, r);
  }

  lemma SealedDecrypts<T(!new)>(s: Scheme<T>, c: Ct<T>, e: nat, k: nat, m: nat)
    requires SchemeOk(s) && Sealed(s, c, e, k, m)
    ensures s.q > 0 && Decrypt(s, k, c) == m % s.q
  {
    DecryptCorrect(s, c, k, m);
  }

  // ---- the compact variant ----

  /** The integers below n with addition modulo n. */
  function Cyclic(n: nat): Grp<int> {
    Grp(x => 0 <= x < n, (x, y) => if x + y < n then x + y else x + y - n, x => if x == 0 then 0 else n - x, 0)
  }

  lemma CyclicGroup(n: nat)
    requires n > 0
    ensures Group(Cyclic(n))
  {
    CyclicLaws(n);
  }

  lemma CyclicLaws(n: nat)
    requires n > 0
    ensures Closed(Cyclic(n)) && Commutative(Cyclic(n)) && Associative(Cyclic(n)) && Cancels(Cyclic(n))
  {
    var g := Cyclic(n);
    forall x, y, z | g.has(x) && g.has(y) && g.has(z)
      ensures g.op(g.op(x, y), z) == g.op(x, g.op(y, z))
    {
      CyclicAssociates(n, x, y, z);
    }
  }

  lemma CyclicAssociates(n: nat, x: int, y: int, z: int)
    requires 0 <= x < n && 0 <= y < n && 0 <= z < n
    ensures Cyclic(n).op(Cyclic(n).op(x, y), z) == Cyclic(n).op(x, Cyclic(n).op(y, z))
  {
  }

  /** A small compact scheme: Cl_G has two elements, Cl_Delta six, the lift is x -> 3x, and f = 2 has order 3. */
  function SmallCompact(): Scheme<int> {
    Scheme(3, true, Cyclic(2), Cyclic(6), x => 3 * x, 1, 2, x => if x == 2 then 1 else if x == 4 then 2 else 0)
  }

  lemma PwStep<T>(g: Grp<T>, x: T, n: nat, y: T)
    requires Pw(g, x, n) == y
    ensures Pw(g, x, n + 1) == g.op(x, y)
  {
  }

  lemma SmallPowers()
    ensures Pw(Cyclic(6), 2, 0) == 0 && Pw(Cyclic(6), 2, 1) == 2 && Pw(Cyclic(6), 2, 2) == 4 && Pw(Cyclic(6), 2, 3) == 0
    ensures Pw(Cyclic(2), 1, 0) == 0 && Pw(Cyclic(2), 1, 1) == 1
    ensures Pw(Cyclic(2), 0, 0) == 0 && Pw(Cyclic(2), 0, 1) == 0
  {
    hide Pw;
    PwZero(Cyclic(6), 2);
    PwStep(Cyclic(6), 2, 0, 0);
    PwStep(Cyclic(6), 2, 1, 2);
    PwStep(Cyclic(6), 2, 2, 4);
    PwZero(Cyclic(2), 1);
    PwStep(Cyclic(2), 1, 0, 0);
    PwZero(Cyclic(2), 0);
    PwStep(Cyclic(2), 0, 0, 0);
  }

  lemma SmallLift()
    ensures LiftOk(SmallCompact())
  {
  }

  lemma SmallDlog()
    ensures DlogOk(SmallCompact())
  {
    SmallPowers();
    hide Pw;
    forall m: nat | m < 3 ensures SmallCompact().dlog(Pw(Cyclic(6), 2, m)) == m {
      assert m == 0 || m == 1 || m == 2;
    }
  }

  /** One cyclic group of order 6, h = 3 and f = 2. */
  function SmallPlain(): Scheme<int> {
    Scheme(3, false, Cyclic(6), Cyclic(6), x => x, 3, 2, x => if x == 2 then 1 else if x == 4 then 2 else 0)
  }

  /** The hypotheses of the protocol theorems can be met. */
  lemma SmallPlainOk()
    ensures SchemeOk(SmallPlain()) && TrivialLift(SmallPlain())
  {
    var s := SmallPlain();
    CyclicGroup(6);
    SmallPowers();
    hide Group, Pw;
    forall m: nat | m < 3 ensures s.dlog(Pw(Cyclic(6), 2, m)) == m {
      assert m == 0 || m == 1 || m == 2;
    }
    assert LiftOk(s) && DlogOk(s);
  }

  lemma SmallCompactOk()
    ensures SchemeOk(SmallCompact())
  {
    CyclicGroup(2);
    CyclicGroup(6);
    SmallPowers();
    SmallLift();
    SmallDlog();
    hide Group, Pw, LiftOk, DlogOk;
  }

  /** Without the lift a single forward hop changes the plaintext: an encryption of 0 under the key 1, mauled with
      rho = 0 and rerandomized with s = 1, decrypts to 2. */
  lemma CompactHopFails()
    ensures SchemeOk(SmallCompact()) && Encrypts(SmallCompact(), Encrypt(SmallCompact(), 1, 0, 0), 1, 0)
    ensures Decrypt(SmallCompact(), 1, MaulFwdRerand(SmallCompact(), Encrypt(SmallCompact(), 1, 0, 0), 0,
                                                     ZeroPair(SmallCompact(), 1, 1))) == 2
  {
    hide SchemeOk, Pw;
    SmallCompactOk();
    SmallPowers();
  }
}
