/** Batched OLE end to end: what the stations of the pipelines compute, and the theorems that every completed run
    leaves (a*x + b) mod q at every index, through both firewalls and directly. */
module RfOle {
  import opened AbelianGroups
  import opened ClassGroup
  import opened Lanes
  import opened Chain
  import opened ChainRuns
  import opened Phases
  import opened LockStep
  import opened LockStepRuns

  /** What travels: the receiver's input and output values in the clear, ciphertexts in between. */
  datatype Item<T> = Plain(v: nat) | Cipher(ct: Ct<T>)

  /** One batch: the parties' inputs, the receiver's key, both mauling exponents, and the randomness of every
      encryption and rerandomization by index. */
  datatype Batch = Batch(x: seq<nat>, a: seq<nat>, b: seq<nat>, k: nat, rho1: nat, rho2: nat,
                         encX: nat -> nat, encB: nat -> nat, pre1R: nat -> nat, pre1S: nat -> nat,
                         pre2R: nat -> nat, pre2S: nat -> nat)

  ghost predicate BatchOk(w: Batch, n: nat) {
    |w.x| == |w.a| == |w.b| == n
  }

  function Pk<T>(s: Scheme<T>, w: Batch): T { Pw(s.g, s.h, w.k) }

  /** The key R-RF publishes. */
  function PkR<T>(s: Scheme<T>, w: Batch): T { MaulPk(s, Pk(s, w), w.rho1) }

  /** The key S-RF publishes. */
  function PkS<T>(s: Scheme<T>, w: Batch): T { MaulPk(s, PkR(s, w), w.rho2) }

  /** Round 1: encrypt; forward-maul twice; compute Enc(a*x + b). */
  function Forward<T>(s: Scheme<T>, w: Batch, station: nat, i: nat, v: Item<T>): Item<T> {
    if station == 0 then (if v.Plain? then Cipher(Encrypt(s, Pk(s, w), v.v, w.encX(i))) else v)
    else if v.Plain? then v
    else if station == 1 then Cipher(MaulFwdRerand(s, v.ct, w.rho1, ZeroPair(s, PkR(s, w), w.pre1R(i))))
    else if station == 2 then Cipher(MaulFwdRerand(s, v.ct, w.rho2, ZeroPair(s, PkS(s, w), w.pre1S(i))))
    else if i < |w.a| && i < |w.b|
    then Cipher(AddCt(s, CMult(s, v.ct, w.a[i]), Encrypt(s, PkS(s, w), w.b[i], w.encB(i))))
    else v
  }

  /** Round 2: inverse-maul twice under the keys the ciphertexts return to; decrypt. */
  function Backward<T>(s: Scheme<T>, w: Batch, station: nat, i: nat, v: Item<T>): Item<T> {
    if v.Plain? || station == 0 then v
    else if station == 1 then Cipher(MaulInvRerand(s, v.ct, w.rho2, ZeroPair(s, PkR(s, w), w.pre2S(i))))
    else if station == 2 then Cipher(MaulInvRerand(s, v.ct, w.rho1, ZeroPair(s, Pk(s, w), w.pre2R(i))))
    else Plain(Decrypt(s, w.k, v.ct))
  }

  /** Direct OLE: encrypt; compute Enc(a*x + b); decrypt. */
  function DirectStep<T>(s: Scheme<T>, w: Batch, station: nat, i: nat, v: Item<T>): Item<T> {
    if station == 0 then (if v.Plain? then Cipher(Encrypt(s, Pk(s, w), v.v, w.encX(i))) else v)
    else if v.Plain? then v
    else if station == 1 then
      if i < |w.a| && i < |w.b|
      then Cipher(AddCt(s, CMult(s, v.ct, w.a[i]), Encrypt(s, Pk(s, w), w.b[i], w.encB(i))))
      else v
    else Plain(Decrypt(s, w.k, v.ct))
  }

  function ForwardOf<T>(s: Scheme<T>, w: Batch): (nat, nat, Item<T>) -> Item<T> {
    (station: nat, i: nat, v: Item<T>) => Forward(s, w, station, i, v)
  }

  function BackwardOf<T>(s: Scheme<T>, w: Batch): (nat, nat, Item<T>) -> Item<T> {
    (station: nat, i: nat, v: Item<T>) => Backward(s, w, station, i, v)
  }

  function DirectOf<T>(s: Scheme<T>, w: Batch): (nat, nat, Item<T>) -> Item<T> {
    (station: nat, i: nat, v: Item<T>) => DirectStep(s, w, station, i, v)
  }

  /** What enters Round 1 at index i. */
  function Entry<T>(w: Batch, i: nat): Item<T> {
    if i < |w.x| then Plain(w.x[i]) else Plain(0)
  }

  /** Round 1 forward, and Round 2 back from what the Sender holds after Round 1. */
  ghost function Rounds<T>(s: Scheme<T>, w: Batch, p1: Params, p2: Params): (r: seq<Phase<Item<T>>>)
    ensures |r| == 2 && r[0].p == p1 && r[1].p == p2 && r[0].f == ForwardOf(s, w) && r[1].f == BackwardOf(s, w)
    ensures !r[0].back && r[1].back && r[0].from == [] && r[1].from == [0]
  {
    [Phase(p1, ForwardOf(s, w), false, [], (i: nat, v: seq<Item<T>>) => Entry(w, i)),
     Phase(p2, BackwardOf(s, w), true, [0], (i: nat, v: seq<Item<T>>) => if |v| == 1 then v[0] else Plain(0))]
  }

  /** Both rounds carry the same items through the four processes. */
  ghost predicate RoundsOk(p1: Params, p2: Params) {
    ParamsOk(p1) && ParamsOk(p2) && p1.n == p2.n && |p1.chunk| == |p2.chunk| == 4
  }

  lemma RoundsArePhases<T>(s: Scheme<T>, w: Batch, p1: Params, p2: Params)
    requires RoundsOk(p1, p2)
    ensures PhasesOk(Rounds(s, w, p1, p2))
  {
    var r := Rounds(s, w, p1, p2);
    forall h | 0 <= h < |r| ensures PhaseOk(r, h) {
      assert h == 0 || h == 1;
    }
  }

  function Inputs<T>(w: Batch): (r: seq<Item<T>>)
    ensures |r| == |w.x| && forall i :: 0 <= i < |w.x| ==> r[i] == Plain(w.x[i])
  {
    seq(|w.x|, i requires 0 <= i < |w.x| => Plain(w.x[i]))
  }

  /** The OLE outputs. */
  function Outputs<T>(w: Batch, q: nat): (r: seq<Item<T>>)
    requires |w.x| == |w.a| == |w.b| && q > 0
    ensures |r| == |w.x| && forall i :: 0 <= i < |w.x| ==> r[i] == Plain((w.a[i] * w.x[i] + w.b[i]) % q)
  {
    seq(|w.x|, i requires 0 <= i < |w.x| => Plain((w.a[i] * w.x[i] + w.b[i]) % q))
  }

  lemma Keys<T(!new)>(s: Scheme<T>, w: Batch)
    requires SchemeOk(s)
    ensures PkR(s, w) == Pw(s.g, s.h, w.k + w.rho1) && PkS(s, w) == Pw(s.g, s.h, w.k + w.rho1 + w.rho2)
  {
    MaulPkCorrect(s, w.k, w.rho1);
    MaulPkCorrect(s, w.k + w.rho1, w.rho2);
  }

  /** Enc(x) -> Enc(a*x + b) under the same key; the randomness goes the same way. */
  lemma SenderStep<T(!new)>(s: Scheme<T>, c: Ct<T>, e: nat, k: nat, x: nat, a: nat, b: nat, ae: nat, ax: nat, r: nat)
    requires SchemeOk(s) && Sealed(s, c, e, k, x) && ae == a * e && ax == a * x
    ensures Sealed(s, AddCt(s, CMult(s, c, a), Encrypt(s, Pw(s.g, s.h, k), b, r)), ae + r, k, ax + b)
  {
    hide *;
    CMultSeals(s, c, e, k, x, a, ae, ax);
    EncryptSeals(s, k, b, r);
    AddSeals(s, CMult(s, c, a), Encrypt(s, Pw(s.g, s.h, k), b, r), ae, r, k, ax, b);
  }

  lemma KeyMoves<T>(s: Scheme<T>, w: Batch)
    ensures Pk(s, w) == Pw(s.g, s.h, w.k)
    ensures PkR(s, w) == MaulPk(s, Pk(s, w), w.rho1) && PkS(s, w) == MaulPk(s, PkR(s, w), w.rho2)
  {
  }

  /** Item v on a link: a ciphertext of m under the key k with randomness e. */
  ghost predicate Carries<T>(s: Scheme<T>, v: Item<T>, e: nat, k: nat, m: nat) {
    v.Cipher? && Sealed(s, v.ct, e, k, m)
  }

  /** Round 1 on one item: the ciphertexts after the Receiver, R-RF, S-RF and the Sender. */
  lemma ForwardLinks<T(!new)>(s: Scheme<T>, w: Batch, i: nat)
    requires SchemeOk(s) && TrivialLift(s) && i < |w.x| && i < |w.a| && i < |w.b|
    ensures var c0 := Forward(s, w, 0, i, Plain(w.x[i]));
      var c1 := Forward(s, w, 1, i, c0);
      var c2 := Forward(s, w, 2, i, c1);
      var c3 := Forward(s, w, 3, i, c2);
      && Carries(s, c0, w.encX(i), w.k, w.x[i])
      && Carries(s, c1, w.encX(i) + w.pre1R(i), w.k + w.rho1, w.x[i])
      && Carries(s, c2, w.encX(i) + w.pre1R(i) + w.pre1S(i), w.k + w.rho1 + w.rho2, w.x[i])
      && Carries(s, c3, Prod(w.a[i], w.encX(i) + w.pre1R(i) + w.pre1S(i)) + w.encB(i), w.k + w.rho1 + w.rho2,
                 Prod(w.a[i], w.x[i]) + w.b[i])
  {
    hide Encrypt, MaulFwdRerand, ZeroPair, AddCt, CMult, MaulPk, Sealed, SchemeOk, TrivialLift, Pw, Pk, PkR, PkS;
    Keys(s, w);
    KeyMoves(s, w);
    var k1, e0 := w.k + w.rho1, w.encX(i);
    var e1 := e0 + w.pre1R(i);
    var e2 := e1 + w.pre1S(i);
    var c0 := Encrypt(s, Pk(s, w), w.x[i], e0);
    var c1 := MaulFwdRerand(s, c0, w.rho1, ZeroPair(s, PkR(s, w), w.pre1R(i)));
    var c2 := MaulFwdRerand(s, c1, w.rho2, ZeroPair(s, PkS(s, w), w.pre1S(i)));
    EncryptSeals(s, w.k, w.x[i], e0);
    ForwardSeals(s, c0, e0, w.k, w.rho1, w.x[i], w.pre1R(i));
    ForwardSeals(s, c1, e1, k1, w.rho2, w.x[i], w.pre1S(i));
    var ae, ax := Prod(w.a[i], e2), Prod(w.a[i], w.x[i]);
    SenderStep(s, c2, e2, k1 + w.rho2, w.x[i], w.a[i], w.b[i], ae, ax, w.encB(i));
  }

  /** Round 2 on one item, from the Sender's answer: what S-RF and R-RF pass on, and what the Receiver decrypts. */
  lemma BackwardLinks<T(!new)>(s: Scheme<T>, w: Batch, i: nat, c: Item<T>, e: nat, m: nat)
    requires SchemeOk(s) && TrivialLift(s) && Carries(s, c, e, w.k + w.rho1 + w.rho2, m)
    ensures var d1 := Backward(s, w, 1, i, Backward(s, w, 0, i, c));
      var d2 := Backward(s, w, 2, i, d1);
      && Backward(s, w, 0, i, c) == c
      && Carries(s, d1, e + w.pre2S(i), w.k + w.rho1, m)
      && Carries(s, d2, e + w.pre2S(i) + w.pre2R(i), w.k, m)
      && s.q > 0 && Backward(s, w, 3, i, d2) == Plain(m % s.q)
  {
    hide MaulInvRerand, ZeroPair, MaulPk, Sealed, SchemeOk, TrivialLift, Pw, Pk, PkR, PkS, Decrypt;
    SchemeFacts(s);
    Keys(s, w);
    KeyMoves(s, w);
    var d1 := MaulInvRerand(s, c.ct, w.rho2, ZeroPair(s, PkR(s, w), w.pre2S(i)));
    var d2 := MaulInvRerand(s, d1, w.rho1, ZeroPair(s, Pk(s, w), w.pre2R(i)));
    InverseSeals(s, c.ct, e, w.k + w.rho1, w.rho2, m, w.pre2S(i));
    InverseSeals(s, d1, e + w.pre2S(i), w.k, w.rho1, m, w.pre2R(i));
    SealedDecrypts(s, d2, e + w.pre2S(i) + w.pre2R(i), w.k, m);
  }

  /** The whole trip of one item. */
  lemma OneItem<T(!new)>(s: Scheme<T>, w: Batch, i: nat)
    requires SchemeOk(s) && TrivialLift(s) && i < |w.x| && i < |w.a| && i < |w.b|
    ensures s.q > 0
    ensures var c0 := Forward(s, w, 0, i, Plain(w.x[i]));
      var c1 := Forward(s, w, 1, i, c0);
      var c2 := Forward(s, w, 2, i, c1);
      var c3 := Forward(s, w, 3, i, c2);
      var d1 := Backward(s, w, 1, i, Backward(s, w, 0, i, c3));
      var d2 := Backward(s, w, 2, i, d1);
      var e := Prod(w.a[i], w.encX(i) + w.pre1R(i) + w.pre1S(i)) + w.encB(i);
      && Carries(s, c0, w.encX(i), w.k, w.x[i])
      && Carries(s, c1, w.encX(i) + w.pre1R(i), w.k + w.rho1, w.x[i])
      && Carries(s, c2, w.encX(i) + w.pre1R(i) + w.pre1S(i), w.k + w.rho1 + w.rho2, w.x[i])
      && Carries(s, c3, e, w.k + w.rho1 + w.rho2, Prod(w.a[i], w.x[i]) + w.b[i])
      && Carries(s, d1, e + w.pre2S(i), w.k + w.rho1, Prod(w.a[i], w.x[i]) + w.b[i])
      && Carries(s, d2, e + w.pre2S(i) + w.pre2R(i), w.k, Prod(w.a[i], w.x[i]) + w.b[i])
      && Backward(s, w, 3, i, d2) == Plain((w.a[i] * w.x[i] + w.b[i]) % s.q)
  {
    hide *;
    SchemeFacts(s);
    ForwardLinks(s, w, i);
    var c3 := Forward(s, w, 3, i, Forward(s, w, 2, i, Forward(s, w, 1, i, Forward(s, w, 0, i, Plain(w.x[i])))));
    BackwardLinks(s, w, i, c3, Prod(w.a[i], w.encX(i) + w.pre1R(i) + w.pre1S(i)) + w.encB(i),
                  Prod(w.a[i], w.x[i]) + w.b[i]);
    ProdIs(w.a[i], w.x[i]);
  }

  /** The direct exchange on one item. */
  lemma DirectItem<T(!new)>(s: Scheme<T>, w: Batch, i: nat)
    requires SchemeOk(s) && i < |w.x| && i < |w.a| && i < |w.b|
    ensures s.q > 0
    ensures var c0 := DirectStep(s, w, 0, i, Plain(w.x[i]));
      var c1 := DirectStep(s, w, 1, i, c0);
      && Carries(s, c0, w.encX(i), w.k, w.x[i])
      && Carries(s, c1, Prod(w.a[i], w.encX(i)) + w.encB(i), w.k, Prod(w.a[i], w.x[i]) + w.b[i])
      && DirectStep(s, w, 2, i, c1) == Plain((w.a[i] * w.x[i] + w.b[i]) % s.q)
  {
    hide Encrypt, AddCt, CMult, Decrypt, Sealed, SchemeOk, Pw, Pk;
    SchemeFacts(s);
    KeyMoves(s, w);
    var c0 := Encrypt(s, Pk(s, w), w.x[i], w.encX(i));
    var c1 := AddCt(s, CMult(s, c0, w.a[i]), Encrypt(s, Pk(s, w), w.b[i], w.encB(i)));
    var ae, ax := Prod(w.a[i], w.encX(i)), Prod(w.a[i], w.x[i]);
    EncryptSeals(s, w.k, w.x[i], w.encX(i));
    SenderStep(s, c0, w.encX(i), w.k, w.x[i], w.a[i], w.b[i], ae, ax, w.encB(i));
    SealedDecrypts(s, c1, ae + w.encB(i), w.k, ax + w.b[i]);
  }

  lemma ValStep<T>(f: (nat, nat, T) -> T, src: seq<T>, station: nat, i: nat)
    requires i < |src| && station > 0
    ensures Val(f, src, station, i) == f(station, i, Val(f, src, station - 1, i)) && Val(f, src, 0, i) == f(0, i, src[i])
  {
  }

  /** What each station of either round must make of item i. */
  lemma {:induction false} StationValues<T(!new)>(s: Scheme<T>, w: Batch, p1: Params, p2: Params, i: nat)
    requires RoundsOk(p1, p2) && BatchOk(w, p1.n) && i < p1.n
    ensures PhasesOk(Rounds(s, w, p1, p2))
    ensures var r := Rounds(s, w, p1, p2);
      var c0 := Forward(s, w, 0, i, Plain(w.x[i]));
      var c1 := Forward(s, w, 1, i, c0);
      var c2 := Forward(s, w, 2, i, c1);
      var c3 := Forward(s, w, 3, i, c2);
      var d0 := Backward(s, w, 0, i, c3);
      var d1 := Backward(s, w, 1, i, d0);
      var d2 := Backward(s, w, 2, i, d1);
      && |Sources(r, 0)| == |Sources(r, 1)| == p1.n
      && Val(r[0].f, Sources(r, 0), 0, i) == c0 && Val(r[0].f, Sources(r, 0), 1, i) == c1
      && Val(r[0].f, Sources(r, 0), 2, i) == c2
      && Val(r[1].f, Sources(r, 1), 0, i) == d0 && Val(r[1].f, Sources(r, 1), 1, i) == d1
      && Val(r[1].f, Sources(r, 1), 2, i) == d2 && Made(r, 1, i) == Backward(s, w, 3, i, d2)
  {
    var f1, f2, r := ForwardOf(s, w), BackwardOf(s, w), Rounds(s, w, p1, p2);
    RoundsArePhases(s, w, p1, p2);
    hide Forward, Backward, Val;
    var src, back := Sources(r, 0), Sources(r, 1);
    assert PhaseOk(r, 0) && PhaseOk(r, 1);
    assert src[i] == Plain(w.x[i]);
    assert Given(r, 1, i)[0] == Made(r, 0, i);
    assert back[i] == Made(r, 0, i) == Val(f1, src, 3, i);
    assert Made(r, 1, i) == Val(f2, back, 3, i);
    ValStep(f1, src, 1, i);
    ValStep(f1, src, 2, i);
    ValStep(f1, src, 3, i);
    ValStep(f2, back, 1, i);
    ValStep(f2, back, 2, i);
    ValStep(f2, back, 3, i);
  }

  /** What the two rounds must make of item i. */
  lemma {:induction false} TripValue<T(!new)>(s: Scheme<T>, w: Batch, p1: Params, p2: Params, i: nat)
    requires SchemeOk(s) && TrivialLift(s) && RoundsOk(p1, p2) && BatchOk(w, p1.n) && i < p1.n
    ensures PhasesOk(Rounds(s, w, p1, p2)) && s.q > 0
    ensures Made(Rounds(s, w, p1, p2), 1, i) == Plain((w.a[i] * w.x[i] + w.b[i]) % s.q)
  {
    BatchIndex(w, p1.n, i);
    hide *;
    StationValues(s, w, p1, p2, i);
    OneItem(s, w, i);
  }

  lemma BatchIndex(w: Batch, n: nat, i: nat)
    requires BatchOk(w, n) && i < n
    ensures i < |w.x| && i < |w.a| && i < |w.b| && |w.x| == |w.a| == |w.b|
  {
  }

  /** What a link carries for item i: a ciphertext determined by the key of the link, the randomness of everybody it
      has passed, and the plaintext. Links 0, 1 and 2 lead away from the Receiver in Round 1 (h = 0) and away from
      the Sender in Round 2. */
  ghost predicate OnLink<T>(s: Scheme<T>, w: Batch, h: nat, link: nat, i: nat, v: Item<T>)
    requires i < |w.x| && i < |w.a| && i < |w.b|
  {
    var e, m := Prod(w.a[i], w.encX(i) + w.pre1R(i) + w.pre1S(i)) + w.encB(i), Prod(w.a[i], w.x[i]) + w.b[i];
    if h == 0 then
      if link == 0 then Carries(s, v, w.encX(i), w.k, w.x[i])
      else if link == 1 then Carries(s, v, w.encX(i) + w.pre1R(i), w.k + w.rho1, w.x[i])
      else Carries(s, v, w.encX(i) + w.pre1R(i) + w.pre1S(i), w.k + w.rho1 + w.rho2, w.x[i])
    else
      if link == 0 then Carries(s, v, e, w.k + w.rho1 + w.rho2, m)
      else if link == 1 then Carries(s, v, e + w.pre2S(i), w.k + w.rho1, m)
      else Carries(s, v, e + w.pre2S(i) + w.pre2R(i), w.k, m)
  }

  lemma {:induction false} StationOnLink<T(!new)>(s: Scheme<T>, w: Batch, p1: Params, p2: Params, h: nat, link: nat,
                                                  i: nat)
    requires SchemeOk(s) && TrivialLift(s) && RoundsOk(p1, p2) && BatchOk(w, p1.n) && i < p1.n
    requires PhasesOk(Rounds(s, w, p1, p2)) && h < 2 && link < 3
    ensures |Sources(Rounds(s, w, p1, p2), h)| == p1.n == |w.x| == |w.a| == |w.b|
    ensures OnLink(s, w, h, link, i, Val(Rounds(s, w, p1, p2)[h].f, Sources(Rounds(s, w, p1, p2), h), link, i))
  {
    hide Val, Forward, Backward, Carries, Sources, Made, SchemeOk, TrivialLift, PhasesOk, Rounds, Prod;
    StationValues(s, w, p1, p2, i);
    OneItem(s, w, i);
    var c3 := Forward(s, w, 3, i, Forward(s, w, 2, i, Forward(s, w, 1, i, Forward(s, w, 0, i, Plain(w.x[i])))));
    BackwardLinks(s, w, i, c3, Prod(w.a[i], w.encX(i) + w.pre1R(i) + w.pre1S(i)) + w.encB(i),
                  Prod(w.a[i], w.x[i]) + w.b[i]);
  }

  /** In every reachable state each queued ciphertext of either round is exactly what its link must carry. */
  lemma {:induction false} RfWire<T(!new)>(s: Scheme<T>, w: Batch, p1: Params, p2: Params, x: seq<State<Item<T>>>,
                                           moves: seq<Move>, x': seq<State<Item<T>>>, h: nat, link: nat, l: nat, k: nat)
    returns (i: nat)
    requires SchemeOk(s) && TrivialLift(s) && RoundsOk(p1, p2) && BatchOk(w, p1.n)
    requires PhasesOk(Rounds(s, w, p1, p2)) && Starts(Rounds(s, w, p1, p2), x)
    requires Runs(Rounds(s, w, p1, p2), x, moves, x') && |x'| == 2
    requires h < 2 && link < 3 && link < |x'[h].q| && l < |x'[h].q[link]| && k < |x'[h].q[link][l]|
    ensures i < |w.x| == |w.a| == |w.b| && OnLink(s, w, h, link, i, x'[h].q[link][l][k])
  {
    RoundsSize(s, w, p1, p2);
    hide *;
    i := OnTheWire(Rounds(s, w, p1, p2), x, moves, x', h, link, l, k);
    StationOnLink(s, w, p1, p2, h, link, i);
  }

  lemma RoundsSize<T>(s: Scheme<T>, w: Batch, p1: Params, p2: Params)
    requires RoundsOk(p1, p2)
    ensures |Rounds(s, w, p1, p2)| == 2 && Rounds(s, w, p1, p2)[0].p == p1 && p1.n == p2.n
  {
  }

  /** Batched RF-OLE: in every interleaving of Receiver, R-RF, S-RF and Sender over bounded lanes, the run is
      bounded and never stuck, no process is in Round 2 before its own Round 1 is over, and when it is done the
      Receiver holds (a*x + b) mod q at every index. */
  lemma {:induction false} RfOleTheorem<T(!new)>(s: Scheme<T>, w: Batch, p1: Params, p2: Params,
                                                 x: seq<State<Item<T>>>, moves: seq<Move>, x': seq<State<Item<T>>>)
    requires SchemeOk(s) && TrivialLift(s) && RoundsOk(p1, p2) && BatchOk(w, p1.n)
    requires PhasesOk(Rounds(s, w, p1, p2)) && Starts(Rounds(s, w, p1, p2), x)
    requires Runs(Rounds(s, w, p1, p2), x, moves, x')
    ensures |x| == |x'| == 2 && |moves| <= Remaining(Rounds(s, w, p1, p2), x, 2)
    ensures SystemShaped(Rounds(s, w, p1, p2), x') && Separate(Rounds(s, w, p1, p2), x') && s.q > 0
    ensures |x'[1].st| == 4
    ensures if Done(Rounds(s, w, p1, p2), x') then x'[1].st[3].outBuf == Outputs(w, s.q)
            else exists m :: CanMove(Rounds(s, w, p1, p2), x', m)
  {
    var r := Rounds(s, w, p1, p2);
    hide Starts, Runs, SchemeOk, TrivialLift, Remaining, CanMove, Val, Done, ForwardOf, BackwardOf, Outputs, Made,
         Separate;
    SchemeFacts(s);
    PhasesTheorem(r, x, moves, x');
    assert PhaseOk(r, 1) && Shaped(r[1].p, x'[1]);
    if Done(r, x') {
      var y, z := x'[1].st[3].outBuf, Outputs<T>(w, s.q);
      assert ShapedStation(p2, x'[1].st[3]);
      forall i | 0 <= i < p1.n ensures y[i] == z[i] {
        assert Held(r, x', 1, i) == Made(r, 1, i);
        TripValue(s, w, p1, p2, i);
      }
    }
  }

  lemma DirectValue<T(!new)>(s: Scheme<T>, w: Batch, n: nat, i: nat)
    requires SchemeOk(s) && BatchOk(w, n) && i < n
    ensures s.q > 0 && Val(DirectOf(s, w), Inputs(w), 2, i) == Plain((w.a[i] * w.x[i] + w.b[i]) % s.q)
  {
    hide DirectStep, Val, SchemeOk;
    DirectItem(s, w, i);
    ValStep(DirectOf(s, w), Inputs(w), 1, i);
    ValStep(DirectOf(s, w), Inputs(w), 2, i);
  }

  /** Direct OLE, for any two chunk sizes and lanes that satisfy the condition: every interleaving is bounded, never
      stuck, and ends with every answer. Otherwise, by DirectStalls, none ever finishes. */
  lemma {:induction false} DirectOleTheorem<T(!new)>(s: Scheme<T>, w: Batch, p: Params, k: nat, j: nat,
                                                     c: State<Item<T>>, steps: seq<Step>, c': State<Item<T>>)
    requires SchemeOk(s) && BatchOk(w, p.n) && Direct(p, k, j) && Initial(p, c)
    requires Exchange(p, DirectOf(s, w), Inputs(w), c, steps, c')
    ensures Shaped(p, c') && |c'.st| == 3 && s.q > 0
    ensures Nested(p, k, j) && Roomy(p) ==>
      && |steps| <= Measure(p, c.st) && (Final(p, c') || exists step :: Allowed(p, c', step))
      && InFlight(c'.q[0]) <= k && InFlight(c'.q[1]) <= k
      && (Finished(p, c'.st[2]) ==> c'.st[2].outBuf == Outputs(w, s.q))
    ensures !(Nested(p, k, j) && Roomy(p)) ==> !Final(p, c')
  {
    hide Initial, Exchange, SchemeOk, Measure, Allowed, Val, Final, Nested, Roomy;
    SchemeFacts(s);
    var f, src := DirectOf(s, w), Inputs<T>(w);
    if Nested(p, k, j) && Roomy(p) {
      DirectTheorem(p, k, j, f, src, c, steps, c');
      if Finished(p, c'.st[2]) {
        forall i | 0 <= i < p.n ensures c'.st[2].outBuf[i] == Outputs(w, s.q)[i] {
          DirectValue(s, w, p.n, i);
        }
      }
    } else {
      DirectStalls(p, k, j, f, src, c, steps, c');
    }
  }

  /** What is on the wire of the direct exchange, whether it completes or not. */
  lemma {:induction false} DirectWire<T(!new)>(s: Scheme<T>, w: Batch, p: Params, k: nat, j: nat, c: State<Item<T>>,
                                               steps: seq<Step>, c': State<Item<T>>, link: nat, l: nat, pos: nat)
    returns (i: nat)
    requires SchemeOk(s) && BatchOk(w, p.n) && Direct(p, k, j) && Initial(p, c)
    requires Exchange(p, DirectOf(s, w), Inputs(w), c, steps, c')
    requires link < 2 && link < |c'.q| && l < |c'.q[link]| && pos < |c'.q[link][l]|
    ensures i < |w.x| == |w.a| == |w.b|
    ensures link == 0 ==> Carries(s, c'.q[0][l][pos], w.encX(i), w.k, w.x[i])
    ensures link == 1 ==> Carries(s, c'.q[1][l][pos], Prod(w.a[i], w.encX(i)) + w.encB(i), w.k,
                                  Prod(w.a[i], w.x[i]) + w.b[i])
  {
    var f, src := DirectOf(s, w), Inputs<T>(w);
    hide SchemeOk, Exchange, Initial, Inv, Val, Carries, DirectStep, Prod;
    InitialInv(p, f, src, c);
    ExchangeInv(p, f, src, c, steps, c');
    i := QueuedAt(p, f, src, c', link, l, pos);
    ValStep(f, src, 1, i);
    DirectItem(s, w, i);
  }
}
