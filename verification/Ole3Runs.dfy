/** Three-round OLE as it runs: the a- and the b-ciphertexts forward through both firewalls, the masked answers back,
    and the decrypted values forward again in the clear, each process in its own order and all over the same
    sockets. */
module Ole3Runs {
  import ModArith
  import opened AbelianGroups
  import opened ClassGroup
  import opened Lanes
  import opened Chain
  import opened ChainRuns
  import opened Phases
  import opened RfOle
  import opened Ole3

  /** One batch: the parties' inputs and masks, and everything the two firewalls draw. */
  datatype Batch3 = Batch3(v: Inputs3, wS: Firewall, wR: Firewall)

  ghost predicate Batch3Ok(u: Batch3, n: nat) {
    InputsOk(u.v, n) && FirewallOk(u.wS, n) && FirewallOk(u.wR, n)
  }

  function Get(v: seq<nat>, i: nat): nat {
    if i < |v| then v[i] else 0
  }

  /** The sender's key, and the keys the two firewalls publish. */
  function Key0<T>(s: Scheme<T>, u: Batch3): T { Pw(s.g, s.h, u.v.k) }

  function Key1<T>(s: Scheme<T>, u: Batch3): T { MaulPk(s, Key0(s, u), u.wS.rho) }

  function Key2<T>(s: Scheme<T>, u: Batch3): T { MaulPk(s, Key1(s, u), u.wR.rho) }

  // ---- one ciphertext through one firewall ----

  function Blind<T>(s: Scheme<T>, w: Firewall, from: T, to: T, i: nat, c: Ct<T>): Ct<T> {
    MaulFwdRerand(s, AddCt(s, c, Encrypt(s, from, Get(w.aBlinds, i), Get(w.blindRnd, i))), w.rho,
                  ZeroPair(s, to, Get(w.zerosA, i)))
  }

  function Align<T>(s: Scheme<T>, w: Firewall, to: T, i: nat, c: Ct<T>): Ct<T> {
    MaulFwdRerand(s, c, w.rho, ZeroPair(s, to, Get(w.zerosB, i)))
  }

  function Return<T>(s: Scheme<T>, w: Firewall, to: T, i: nat, c: Ct<T>): Ct<T> {
    MaulInvRerand(s, c, w.rho, ZeroPair(s, to, Get(w.zerosY, i)))
  }

  lemma BlindSeals<T(!new)>(s: Scheme<T>, w: Firewall, e: nat, k: nat, i: nat, c: Ct<T>, m: nat)
    requires SchemeOk(s) && TrivialLift(s) && Sealed(s, c, e, k, m)
    ensures var pk := Pw(s.g, s.h, k);
      Sealed(s, Blind(s, w, pk, MaulPk(s, pk, w.rho), i, c), e + Get(w.blindRnd, i) + Get(w.zerosA, i), k + w.rho,
             m + Get(w.aBlinds, i))
  {
    hide Lift, SchemeOk, TrivialLift, Sealed, Encrypt, AddCt, MaulFwdRerand, ZeroPair, MaulPk, Pw, Get;
    var d := Encrypt(s, Pw(s.g, s.h, k), Get(w.aBlinds, i), Get(w.blindRnd, i));
    EncryptSeals(s, k, Get(w.aBlinds, i), Get(w.blindRnd, i));
    AddSeals(s, c, d, e, Get(w.blindRnd, i), k, m, Get(w.aBlinds, i));
    ForwardSeals(s, AddCt(s, c, d), e + Get(w.blindRnd, i), k, w.rho, m + Get(w.aBlinds, i), Get(w.zerosA, i));
  }

  lemma AlignSeals<T(!new)>(s: Scheme<T>, w: Firewall, e: nat, k: nat, i: nat, c: Ct<T>, m: nat)
    requires SchemeOk(s) && TrivialLift(s) && Sealed(s, c, e, k, m)
    ensures Sealed(s, Align(s, w, MaulPk(s, Pw(s.g, s.h, k), w.rho), i, c), e + Get(w.zerosB, i), k + w.rho, m)
  {
    hide Lift, SchemeOk, TrivialLift, Sealed, MaulFwdRerand, ZeroPair, MaulPk, Pw, Get;
    ForwardSeals(s, c, e, k, w.rho, m, Get(w.zerosB, i));
  }

  lemma ReturnSeals<T(!new)>(s: Scheme<T>, w: Firewall, e: nat, k: nat, i: nat, c: Ct<T>, m: nat)
    requires SchemeOk(s) && TrivialLift(s) && Sealed(s, c, e, k + w.rho, m)
    ensures Sealed(s, Return(s, w, Pw(s.g, s.h, k), i, c), e + Get(w.zerosY, i), k, m)
  {
    hide Lift, SchemeOk, TrivialLift, Sealed, MaulInvRerand, ZeroPair, Pw, Get;
    InverseSeals(s, c, e, k, w.rho, m, Get(w.zerosY, i));
  }

  function Residue(x: int, q: nat): nat
    requires q > 0
  {
    x % q
  }

  // ---- the four passes ----

  function PassA<T>(s: Scheme<T>, u: Batch3): (nat, nat, Item<T>) -> Item<T> {
    (station: nat, i: nat, e: Item<T>) =>
      if e.Plain? then e
      else if station == 1 then Cipher(Blind(s, u.wS, Key0(s, u), Key1(s, u), i, e.ct))
      else if station == 2 then Cipher(Blind(s, u.wR, Key1(s, u), Key2(s, u), i, e.ct))
      else e
  }

  function PassB<T>(s: Scheme<T>, u: Batch3): (nat, nat, Item<T>) -> Item<T> {
    (station: nat, i: nat, e: Item<T>) =>
      if e.Plain? then e
      else if station == 1 then Cipher(Align(s, u.wS, Key1(s, u), i, e.ct))
      else if station == 2 then Cipher(Align(s, u.wR, Key2(s, u), i, e.ct))
      else e
  }

  function PassY<T>(s: Scheme<T>, u: Batch3): (nat, nat, Item<T>) -> Item<T> {
    (station: nat, i: nat, e: Item<T>) =>
      if e.Plain? then e
      else if station == 1 then Cipher(Return(s, u.wR, Key1(s, u), i, e.ct))
      else if station == 2 then Cipher(Return(s, u.wS, Key0(s, u), i, e.ct))
      else if station == 3 then Plain(Decrypt(s, u.v.k, e.ct))
      else e
  }

  function PassZ<T>(s: Scheme<T>, u: Batch3): (nat, nat, Item<T>) -> Item<T> {
    (station: nat, i: nat, e: Item<T>) =>
      if e.Cipher? || s.q == 0 then e
      else if station == 1 then Plain(Residue(e.v + Get(u.wS.bBlinds, i), s.q))
      else if station == 2 then Plain(Residue(e.v + Get(u.wR.bBlinds, i), s.q))
      else if station == 3 then Plain(Residue(e.v - Get(u.v.r, i), s.q))
      else e
  }

  /** The receiver's answer: a * x + b + r on ciphertexts. */
  function Answer<T>(s: Scheme<T>, u: Batch3, i: nat, a: Ct<T>, b: Ct<T>): Ct<T> {
    AddCt(s, AddCt(s, CMult(s, a, Get(u.v.x, i)), b), Encrypt(s, Key2(s, u), Get(u.v.r, i), Get(u.v.rndR, i)))
  }

  function StartA<T>(s: Scheme<T>, u: Batch3): (nat, seq<Item<T>>) -> Item<T> {
    (i: nat, e: seq<Item<T>>) => Cipher(Encrypt(s, Key0(s, u), Get(u.v.a, i), Get(u.v.rndA, i)))
  }

  function StartB<T>(s: Scheme<T>, u: Batch3): (nat, seq<Item<T>>) -> Item<T> {
    (i: nat, e: seq<Item<T>>) => Cipher(Encrypt(s, Key0(s, u), Get(u.v.b, i), Get(u.v.rndB, i)))
  }

  function StartY<T>(s: Scheme<T>, u: Batch3): (nat, seq<Item<T>>) -> Item<T> {
    (i: nat, e: seq<Item<T>>) =>
      if |e| == 2 && e[0].Cipher? && e[1].Cipher? then Cipher(Answer(s, u, i, e[0].ct, e[1].ct)) else Plain(0)
  }

  function StartZ<T>(): (nat, seq<Item<T>>) -> Item<T> {
    (i: nat, e: seq<Item<T>>) => if |e| == 1 then e[0] else Plain(0)
  }

  /** Every process runs its parts of the passes in this order. */
  ghost function Passes<T>(s: Scheme<T>, u: Batch3, p: seq<Params>): (r: seq<Phase<Item<T>>>)
    requires |p| == 4
    ensures |r| == 4 && forall h :: 0 <= h < 4 ==> r[h].p == p[h]
  {
    [Phase(p[0], PassA(s, u), false, [], StartA(s, u)),
     Phase(p[1], PassB(s, u), false, [], StartB(s, u)),
     Phase(p[2], PassY(s, u), true, [0, 1], StartY(s, u)),
     Phase(p[3], PassZ(s, u), false, [2], StartZ())]
  }

  /** The same items for the same four processes in every pass; lanes, room and chunks may differ. */
  ghost predicate PassesOk(p: seq<Params>, n: nat) {
    |p| == 4 && forall h :: 0 <= h < 4 ==> ParamsOk(p[h]) && p[h].n == n && |p[h].chunk| == 4
  }

  lemma PassesArePhases<T>(s: Scheme<T>, u: Batch3, p: seq<Params>, n: nat)
    requires PassesOk(p, n)
    ensures PhasesOk(Passes(s, u, p))
  {
    var r := Passes(s, u, p);
    forall h | 0 <= h < |r| ensures PhaseOk(r, h) {
      assert h == 0 || h == 1 || h == 2 || h == 3;
    }
  }

  // ---- what each pass makes of one item ----

  lemma Keys3<T(!new)>(s: Scheme<T>, u: Batch3)
    requires SchemeOk(s)
    ensures Key0(s, u) == Pw(s.g, s.h, u.v.k)
    ensures Key1(s, u) == MaulPk(s, Key0(s, u), u.wS.rho) == Pw(s.g, s.h, u.v.k + u.wS.rho)
    ensures Key2(s, u) == MaulPk(s, Key1(s, u), u.wR.rho) == Pw(s.g, s.h, u.v.k + u.wS.rho + u.wR.rho)
  {
    hide SchemeOk, Pw, MaulPk;
    MaulPkCorrect(s, u.v.k, u.wS.rho);
    MaulPkCorrect(s, u.v.k + u.wS.rho, u.wR.rho);
  }

  /** The randomness of the a- and b-ciphertexts at the receiver, and of its answer. */
  function RandomnessA(u: Batch3, i: nat): nat {
    Get(u.v.rndA, i) + Get(u.wS.blindRnd, i) + Get(u.wS.zerosA, i) + Get(u.wR.blindRnd, i) + Get(u.wR.zerosA, i)
  }

  function RandomnessB(u: Batch3, i: nat): nat {
    Get(u.v.rndB, i) + Get(u.wS.zerosB, i) + Get(u.wR.zerosB, i)
  }

  function RandomnessY(u: Batch3, i: nat): nat {
    Prod(Get(u.v.x, i), RandomnessA(u, i)) + RandomnessB(u, i) + Get(u.v.rndR, i)
  }

  /** a + a' + a''. */
  function BlindedA(u: Batch3, i: nat): nat {
    Get(u.v.a, i) + Get(u.wS.aBlinds, i) + Get(u.wR.aBlinds, i)
  }

  /** (a + a' + a'') * x + b. */
  function AnswerValue(u: Batch3, i: nat): nat {
    Prod(Get(u.v.x, i), BlindedA(u, i)) + Get(u.v.b, i)
  }

  /** What a link carries for item i. Links 0, 1 and 2 lead away from the Sender in the passes for a (h = 0),
      b (h = 1) and z (h = 3), and away from the Receiver in the pass for y (h = 2). */
  ghost predicate OnLink3<T>(s: Scheme<T>, u: Batch3, h: nat, link: nat, i: nat, v: Item<T>)
    requires s.q > 0
  {
    var k, k1 := u.v.k, u.v.k + u.wS.rho;
    var k2, m := k1 + u.wR.rho, AnswerValue(u, i) + Get(u.v.r, i);
    if h == 0 then
      if link == 0 then Carries(s, v, Get(u.v.rndA, i), k, Get(u.v.a, i))
      else if link == 1
      then Carries(s, v, Get(u.v.rndA, i) + Get(u.wS.blindRnd, i) + Get(u.wS.zerosA, i), k1,
                   Get(u.v.a, i) + Get(u.wS.aBlinds, i))
      else Carries(s, v, RandomnessA(u, i), k2, BlindedA(u, i))
    else if h == 1 then
      if link == 0 then Carries(s, v, Get(u.v.rndB, i), k, Get(u.v.b, i))
      else if link == 1 then Carries(s, v, Get(u.v.rndB, i) + Get(u.wS.zerosB, i), k1, Get(u.v.b, i))
      else Carries(s, v, RandomnessB(u, i), k2, Get(u.v.b, i))
    else if h == 2 then
      if link == 0 then Carries(s, v, RandomnessY(u, i), k2, m)
      else if link == 1 then Carries(s, v, RandomnessY(u, i) + Get(u.wR.zerosY, i), k1, m)
      else Carries(s, v, RandomnessY(u, i) + Get(u.wR.zerosY, i) + Get(u.wS.zerosY, i), k, m)
    else
      if link == 0 then v == Plain(Residue(m, s.q))
      else if link == 1 then v == Plain(Residue(m + Get(u.wS.bBlinds, i), s.q))
      else v == Plain(Residue(m + Get(u.wS.bBlinds, i) + Get(u.wR.bBlinds, i), s.q))
  }

  lemma LinksA<T(!new)>(s: Scheme<T>, u: Batch3, i: nat, g: seq<Item<T>>)
    requires SchemeOk(s) && TrivialLift(s) && s.q > 0
    ensures var f := PassA(s, u);
      var v0 := f(0, i, StartA(s, u)(i, g));
      var v1 := f(1, i, v0);
      var v2 := f(2, i, v1);
      OnLink3(s, u, 0, 0, i, v0) && OnLink3(s, u, 0, 1, i, v1) && OnLink3(s, u, 0, 2, i, v2) && f(3, i, v2) == v2
  {
    hide Lift, SchemeOk, TrivialLift, Sealed, Encrypt, Blind, MaulPk, Pw, Get, Key0, Key1, Key2;
    Keys3(s, u);
    var k, a, e := u.v.k, Get(u.v.a, i), Get(u.v.rndA, i);
    var c0 := Encrypt(s, Key0(s, u), a, e);
    var c1 := Blind(s, u.wS, Key0(s, u), Key1(s, u), i, c0);
    EncryptSeals(s, k, a, e);
    BlindSeals(s, u.wS, e, k, i, c0, a);
    BlindSeals(s, u.wR, e + Get(u.wS.blindRnd, i) + Get(u.wS.zerosA, i), k + u.wS.rho, i, c1, a + Get(u.wS.aBlinds, i));
  }

  lemma LinksB<T(!new)>(s: Scheme<T>, u: Batch3, i: nat, g: seq<Item<T>>)
    requires SchemeOk(s) && TrivialLift(s) && s.q > 0
    ensures var f := PassB(s, u);
      var v0 := f(0, i, StartB(s, u)(i, g));
      var v1 := f(1, i, v0);
      var v2 := f(2, i, v1);
      OnLink3(s, u, 1, 0, i, v0) && OnLink3(s, u, 1, 1, i, v1) && OnLink3(s, u, 1, 2, i, v2) && f(3, i, v2) == v2
  {
    hide Lift, SchemeOk, TrivialLift, Sealed, Encrypt, Align, MaulPk, Pw, Get, Key0, Key1, Key2;
    Keys3(s, u);
    var k, b, e := u.v.k, Get(u.v.b, i), Get(u.v.rndB, i);
    var c0 := Encrypt(s, Key0(s, u), b, e);
    var c1 := Align(s, u.wS, Key1(s, u), i, c0);
    EncryptSeals(s, k, b, e);
    AlignSeals(s, u.wS, e, k, i, c0, b);
    AlignSeals(s, u.wR, e + Get(u.wS.zerosB, i), k + u.wS.rho, i, c1, b);
  }

  /** The receiver's answer from what the first two passes left it. */
  lemma AnswerSeals<T(!new)>(s: Scheme<T>, u: Batch3, i: nat, a: Ct<T>, b: Ct<T>)
    requires SchemeOk(s) && TrivialLift(s)
    requires Sealed(s, a, RandomnessA(u, i), u.v.k + u.wS.rho + u.wR.rho, BlindedA(u, i))
    requires Sealed(s, b, RandomnessB(u, i), u.v.k + u.wS.rho + u.wR.rho, Get(u.v.b, i))
    ensures Sealed(s, Answer(s, u, i, a, b), RandomnessY(u, i), u.v.k + u.wS.rho + u.wR.rho,
                   AnswerValue(u, i) + Get(u.v.r, i))
  {
    hide Lift, SchemeOk, TrivialLift, Sealed, Encrypt, AddCt, CMult, MaulPk, Pw, Get, Key0, Key1, Key2, RandomnessA,
         RandomnessB, BlindedA;
    Keys3(s, u);
    var k2, x, r := u.v.k + u.wS.rho + u.wR.rho, Get(u.v.x, i), Get(u.v.r, i);
    var ct, ea, ax := CMult(s, a, x), Prod(x, RandomnessA(u, i)), Prod(x, BlindedA(u, i));
    CMultSeals(s, a, RandomnessA(u, i), k2, BlindedA(u, i), x, ea, ax);
    AddSeals(s, ct, b, ea, RandomnessB(u, i), k2, ax, Get(u.v.b, i));
    EncryptSeals(s, k2, r, Get(u.v.rndR, i));
    AddSeals(s, AddCt(s, ct, b), Encrypt(s, Key2(s, u), r, Get(u.v.rndR, i)), ea + RandomnessB(u, i), Get(u.v.rndR, i),
             k2, ax + Get(u.v.b, i), r);
  }

  /** The answer on its way back, and what the sender decrypts: (a + a' + a'') * x + b + r. */
  lemma LinksY<T(!new)>(s: Scheme<T>, u: Batch3, i: nat, g: seq<Item<T>>)
    requires SchemeOk(s) && TrivialLift(s) && s.q > 0
    requires |g| == 2 && OnLink3(s, u, 0, 2, i, g[0]) && OnLink3(s, u, 1, 2, i, g[1])
    ensures var f := PassY(s, u);
      var v0 := f(0, i, StartY(s, u)(i, g));
      var v1 := f(1, i, v0);
      var v2 := f(2, i, v1);
      && OnLink3(s, u, 2, 0, i, v0) && OnLink3(s, u, 2, 1, i, v1) && OnLink3(s, u, 2, 2, i, v2)
      && f(3, i, v2) == Plain(Residue(AnswerValue(u, i) + Get(u.v.r, i), s.q))
  {
    hide Lift, SchemeOk, TrivialLift, Sealed, Answer, Return, MaulPk, Pw, Get, Decrypt, Key0, Key1, Key2, RandomnessA,
         RandomnessB, RandomnessY, BlindedA, AnswerValue;
    Keys3(s, u);
    var m, e, k1 := AnswerValue(u, i) + Get(u.v.r, i), RandomnessY(u, i), u.v.k + u.wS.rho;
    var c0 := Answer(s, u, i, g[0].ct, g[1].ct);
    var c1 := Return(s, u.wR, Key1(s, u), i, c0);
    var c2 := Return(s, u.wS, Key0(s, u), i, c1);
    AnswerSeals(s, u, i, g[0].ct, g[1].ct);
    ReturnSeals(s, u.wR, e, k1, i, c0, m);
    ReturnSeals(s, u.wS, e + Get(u.wR.zerosY, i), u.v.k, i, c1, m);
    SealedDecrypts(s, c2, e + Get(u.wR.zerosY, i) + Get(u.wS.zerosY, i), u.v.k, m);
  }

  /** (a + a' + a'') * x + b + b' + b'' modulo q, at index i. */
  function Sanitized(u: Batch3, i: nat, q: nat): nat
    requires q > 0
  {
    ((Get(u.v.a, i) + Get(u.wS.aBlinds, i) + Get(u.wR.aBlinds, i)) * Get(u.v.x, i) + Get(u.v.b, i)
     + Get(u.wS.bBlinds, i) + Get(u.wR.bBlinds, i)) % q
  }

  lemma SanitizedIs(u: Batch3, i: nat, q: nat)
    requires q > 0
    ensures Sanitized(u, i, q) == Residue(AnswerValue(u, i) + Get(u.wS.bBlinds, i) + Get(u.wR.bBlinds, i), q)
  {
    ProdIs(Get(u.v.x, i), BlindedA(u, i));
    assert BlindedA(u, i) * Get(u.v.x, i) == Prod(Get(u.v.x, i), BlindedA(u, i));
    hide Get;
  }

  lemma PassZIs<T>(s: Scheme<T>, u: Batch3, i: nat, z: nat, zS: nat, zR: nat)
    requires s.q > 0 && zS == Residue(z + Get(u.wS.bBlinds, i), s.q) && zR == Residue(zS + Get(u.wR.bBlinds, i), s.q)
    ensures var f := PassZ(s, u);
      && f(0, i, Plain(z)) == Plain(z) && f(1, i, Plain(z)) == Plain(zS) && f(2, i, Plain(zS)) == Plain(zR)
      && f(3, i, Plain(zR)) == Plain(Residue(zR - Get(u.v.r, i), s.q))
  {
    hide Get, Residue;
  }

  lemma Shift(z: nat, m: nat, b: int, q: nat)
    requires q > 0 && z == Residue(m, q)
    ensures Residue(z + b, q) == Residue(m + b, q)
  {
    ModArith.CongMod(m, q);
    ModArith.CongAdd(z, m, b, b, q);
  }

  /** Both b-blinds go on and the mask comes off. */
  lemma LinksZ<T>(s: Scheme<T>, u: Batch3, i: nat, g: seq<Item<T>>)
    requires s.q > 0 && g == [Plain(Residue(AnswerValue(u, i) + Get(u.v.r, i), s.q))]
    ensures var f := PassZ(s, u);
      var v0 := f(0, i, StartZ()(i, g));
      var v1 := f(1, i, v0);
      var v2 := f(2, i, v1);
      && OnLink3(s, u, 3, 0, i, v0) && OnLink3(s, u, 3, 1, i, v1) && OnLink3(s, u, 3, 2, i, v2)
      && f(3, i, v2) == Plain(Sanitized(u, i, s.q))
  {
    hide *;
    var m, bS, bR := AnswerValue(u, i) + Get(u.v.r, i), Get(u.wS.bBlinds, i), Get(u.wR.bBlinds, i);
    SanitizedIs(u, i, s.q);
    OnLinkZ(s, u, i);
    StartZIs(i, g);
    var z := Residue(m, s.q);
    var zS := Residue(z + bS, s.q);
    var zR := Residue(zS + bR, s.q);
    PassZIs(s, u, i, z, zS, zR);
    Shift(z, m, bS, s.q);
    Shift(zS, m + bS, bR, s.q);
    var mask: int := Get(u.v.r, i);
    Shift(zR, m + bS + bR, -mask, s.q);
  }

  lemma StartZIs<T>(i: nat, g: seq<Item<T>>)
    requires |g| == 1
    ensures StartZ<T>()(i, g) == g[0]
  {
  }

  lemma OnLinkZ<T>(s: Scheme<T>, u: Batch3, i: nat)
    requires s.q > 0
    ensures var m := AnswerValue(u, i) + Get(u.v.r, i);
      && OnLink3(s, u, 3, 0, i, Plain(Residue(m, s.q)))
      && OnLink3(s, u, 3, 1, i, Plain(Residue(m + Get(u.wS.bBlinds, i), s.q)))
      && OnLink3(s, u, 3, 2, i, Plain(Residue(m + Get(u.wS.bBlinds, i) + Get(u.wR.bBlinds, i), s.q)))
  {
    hide AnswerValue, Get, Residue;
  }

  /** Every station of a pass, from the results the pass starts from. */
  lemma Pass<T>(r: seq<Phase<Item<T>>>, h: nat, i: nat)
    requires PhasesOk(r) && h < |r| && i < r[0].p.n && |r[0].p.chunk| == 4
    ensures PhaseOk(r, h) && |Given(r, h, i)| == |r[h].from| && |Sources(r, h)| == r[0].p.n
    ensures forall k :: 0 <= k < |r[h].from| ==> r[h].from[k] < h && Given(r, h, i)[k] == Made(r, r[h].from[k], i)
    ensures var f := r[h].f;
      var v0 := f(0, i, r[h].init(i, Given(r, h, i)));
      var v1 := f(1, i, v0);
      var v2 := f(2, i, v1);
      && Val(f, Sources(r, h), 0, i) == v0 && Val(f, Sources(r, h), 1, i) == v1 && Val(f, Sources(r, h), 2, i) == v2
      && Made(r, h, i) == f(3, i, v2)
  {
    assert PhaseOk(r, h);
    var f, src := r[h].f, Sources(r, h);
    hide Val;
    ValStep(f, src, 1, i);
    ValStep(f, src, 2, i);
    ValStep(f, src, 3, i);
  }

  /** All links of one pass. */
  ghost predicate Linked<T>(s: Scheme<T>, u: Batch3, r: seq<Phase<Item<T>>>, h: nat, i: nat)
    requires s.q > 0 && PhasesOk(r) && h < |r| && i < r[0].p.n
  {
    var f, src := r[h].f, Sources(r, h);
    && OnLink3(s, u, h, 0, i, Val(f, src, 0, i)) && OnLink3(s, u, h, 1, i, Val(f, src, 1, i))
    && OnLink3(s, u, h, 2, i, Val(f, src, 2, i))
  }

  lemma PassLinkedAB<T(!new)>(s: Scheme<T>, u: Batch3, p: seq<Params>, n: nat, i: nat)
    requires SchemeOk(s) && TrivialLift(s) && s.q > 0 && PassesOk(p, n) && i < n && PhasesOk(Passes(s, u, p))
    ensures var r := Passes(s, u, p);
      && r[0].p.n == n && Linked(s, u, r, 0, i) && Linked(s, u, r, 1, i)
      && OnLink3(s, u, 0, 2, i, Made(r, 0, i)) && OnLink3(s, u, 1, 2, i, Made(r, 1, i))
  {
    hide SchemeOk, TrivialLift, OnLink3, PassA, PassB, StartA, StartB, Made, Given, PhasesOk, PhaseOk, Val;
    var r := Passes(s, u, p);
    Pass(r, 0, i);
    Pass(r, 1, i);
    LinksA(s, u, i, Given(r, 0, i));
    LinksB(s, u, i, Given(r, 1, i));
  }

  lemma PassLinkedY<T(!new)>(s: Scheme<T>, u: Batch3, p: seq<Params>, n: nat, i: nat)
    requires SchemeOk(s) && TrivialLift(s) && s.q > 0 && PassesOk(p, n) && i < n && PhasesOk(Passes(s, u, p))
    ensures var r := Passes(s, u, p);
      && r[0].p.n == n && Linked(s, u, r, 2, i)
      && Made(r, 2, i) == Plain(Residue(AnswerValue(u, i) + Get(u.v.r, i), s.q))
  {
    hide SchemeOk, TrivialLift, OnLink3, PassY, StartY, Made, Given, PhasesOk, PhaseOk, Val, AnswerValue;
    var r := Passes(s, u, p);
    PassLinkedAB(s, u, p, n, i);
    Pass(r, 2, i);
    LinksY(s, u, i, Given(r, 2, i));
  }

  /** What the receiver ends with for item i, and what was on the links before. */
  lemma {:induction false} Outcome<T(!new)>(s: Scheme<T>, u: Batch3, p: seq<Params>, n: nat, i: nat)
    requires SchemeOk(s) && TrivialLift(s) && s.q > 0 && PassesOk(p, n) && i < n && PhasesOk(Passes(s, u, p))
    ensures var r := Passes(s, u, p);
      && r[0].p.n == n && (forall h :: 0 <= h < 4 ==> Linked(s, u, r, h, i))
      && Made(r, 3, i) == Plain(Sanitized(u, i, s.q))
  {
    hide SchemeOk, TrivialLift, OnLink3, PassZ, StartZ, Made, Given, PhasesOk, PhaseOk, Val, AnswerValue, Sanitized,
         Sources;
    var r := Passes(s, u, p);
    PassLinkedAB(s, u, p, n, i);
    PassLinkedY(s, u, p, n, i);
    Pass(r, 3, i);
    assert Given(r, 3, i) == [Made(r, 2, i)];
    LinksZ(s, u, i, Given(r, 3, i));
    assert Linked(s, u, r, 3, i);
    forall h | 0 <= h < 4 ensures Linked(s, u, r, h, i) {
      assert h == 0 || h == 1 || h == 2 || h == 3;
    }
  }

  // ---- runs ----

  /** Three-round OLE: every interleaving of the four processes, each in its own order over shared sockets of any
      room, with any lanes and chunks in each pass, is bounded and never stuck; and when it is done the receiver
      holds ((a + a' + a'') * x + b + b' + b'') mod q at every index. */
  lemma {:induction false} Ole3Theorem<T(!new)>(s: Scheme<T>, u: Batch3, p: seq<Params>, n: nat,
                                                x: seq<State<Item<T>>>, moves: seq<Move>, x': seq<State<Item<T>>>)
    requires SchemeOk(s) && TrivialLift(s) && PassesOk(p, n) && Batch3Ok(u, n)
    requires PhasesOk(Passes(s, u, p)) && Starts(Passes(s, u, p), x) && Runs(Passes(s, u, p), x, moves, x')
    ensures |x| == |x'| == 4 && |moves| <= Remaining(Passes(s, u, p), x, 4)
    ensures SystemShaped(Passes(s, u, p), x') && Separate(Passes(s, u, p), x') && s.q > 0
    ensures |x'[3].st| == 4 && |x'[3].st[3].outBuf| == n
    ensures if Done(Passes(s, u, p), x')
            then forall i :: 0 <= i < n ==> x'[3].st[3].outBuf[i] == Plain(Sanitized(u, i, s.q))
            else exists m :: CanMove(Passes(s, u, p), x', m)
  {
    hide *;
    PassFacts(p, n);
    var r := Passes(s, u, p);
    SchemeFacts(s);
    PhasesTheorem(r, x, moves, x');
    LastBuffer(r, x', 3, n, p[3]);
    if Done(r, x') {
      forall i | 0 <= i < n ensures x'[3].st[3].outBuf[i] == Plain(Sanitized(u, i, s.q)) {
        Outcome(s, u, p, n, i);
      }
    }
  }

  lemma PassFacts(p: seq<Params>, n: nat)
    requires PassesOk(p, n)
    ensures |p| == 4 && p[0].n == n && p[3].n == n && |p[3].chunk| == 4
  {
  }

  lemma LastBuffer<T>(r: seq<Phase<Item<T>>>, x: seq<State<Item<T>>>, h: nat, n: nat, p: Params)
    requires PhasesOk(r) && SystemShaped(r, x) && h < |r| && r[h].p == p && |p.chunk| == 4 && p.n == n
    ensures |x| == |r| && r[0].p.n == n && |x[h].st| == 4 && |x[h].st[3].outBuf| == n
    ensures forall i :: 0 <= i < n ==> Held(r, x, h, i) == x[h].st[3].outBuf[i]
  {
    assert PhaseOk(r, h) && Shaped(r[h].p, x[h]);
    assert ShapedStation(p, x[h].st[3]);
  }

  /** In every reachable state each queued item of every pass is exactly what its link must carry. */
  lemma {:induction false} Ole3Wire<T(!new)>(s: Scheme<T>, u: Batch3, p: seq<Params>, n: nat,
                                             x: seq<State<Item<T>>>, moves: seq<Move>, x': seq<State<Item<T>>>,
                                             h: nat, link: nat, l: nat, k: nat) returns (i: nat)
    requires SchemeOk(s) && TrivialLift(s) && PassesOk(p, n)
    requires PhasesOk(Passes(s, u, p)) && Starts(Passes(s, u, p), x) && Runs(Passes(s, u, p), x, moves, x')
    requires |x'| == 4 && h < 4 && link < 3
    requires link < |x'[h].q| && l < |x'[h].q[link]| && k < |x'[h].q[link][l]|
    ensures i < n && s.q > 0 && OnLink3(s, u, h, link, i, x'[h].q[link][l][k])
  {
    hide *;
    SchemeFacts(s);
    PassFacts(p, n);
    i := OnTheWire(Passes(s, u, p), x, moves, x', h, link, l, k);
    Outcome(s, u, p, n, i);
    LinkedAt(s, u, Passes(s, u, p), h, link, i);
  }

  lemma LinkedAt<T>(s: Scheme<T>, u: Batch3, r: seq<Phase<Item<T>>>, h: nat, link: nat, i: nat)
    requires s.q > 0 && PhasesOk(r) && h < |r| && i < r[0].p.n && Linked(s, u, r, h, i) && link < 3
    ensures |Sources(r, h)| == r[0].p.n && OnLink3(s, u, h, link, i, Val(r[h].f, Sources(r, h), link, i))
  {
    hide OnLink3, Val, Sources;
  }
}
