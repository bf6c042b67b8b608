/** Three-round OLE through both firewalls: the a-blinds are added under encryption on the way to the receiver,
    the b-blinds are added to the decrypted value on its way back. */
module Ole3 {
  import opened ModArith
  import opened AbelianGroups
  import opened ClassGroup
  import opened Results

  // ---- the firewalls' batch transforms ----

  ghost predicate FwdDone<T>(s: Scheme<T>, input: seq<Ct<T>>, out: seq<Ct<T>>, rho: nat, targetPk: T, zeros: seq<nat>) {
    && |out| == |input| == |zeros|
    && forall i :: 0 <= i < |input| ==> out[i] == MaulFwdRerand(s, input[i], rho, ZeroPair(s, targetPk, zeros[i]))
  }

  ghost predicate InvDone<T>(s: Scheme<T>, input: seq<Ct<T>>, out: seq<Ct<T>>, rho: nat, targetPk: T, zeros: seq<nat>) {
    && |out| == |input| == |zeros|
    && forall i :: 0 <= i < |input| ==> out[i] == MaulInvRerand(s, input[i], rho, ZeroPair(s, targetPk, zeros[i]))
  }

  ghost predicate BlindDone<T>(s: Scheme<T>, input: seq<Ct<T>>, out: seq<Ct<T>>, rho: nat, sourcePk: T, targetPk: T,
                               blinds: seq<nat>, encRnd: seq<nat>, zeros: seq<nat>)
  {
    && |out| == |input| == |zeros| == |blinds| == |encRnd|
    && forall i :: 0 <= i < |input| ==>
         out[i] == MaulFwdRerand(s, AddCt(s, input[i], Encrypt(s, sourcePk, blinds[i], encRnd[i])), rho,
                                 ZeroPair(s, targetPk, zeros[i]))
  }

  method TransformFwdBatch<T>(s: Scheme<T>, input: seq<Ct<T>>, rho: nat, targetPk: T, zeros: seq<nat>, chunk: nat)
    returns (out: seq<Ct<T>>)
    requires |zeros| == |input| && chunk >= 1
    ensures FwdDone(s, input, out, rho, targetPk, zeros)
  {
    out := [];
    var begin := 0;
    while begin < |input|
      invariant |out| == begin <= |input|
      invariant forall i :: 0 <= i < begin ==>
        out[i] == MaulFwdRerand(s, input[i], rho, ZeroPair(s, targetPk, zeros[i]))
    {
      var end := if begin + chunk < |input| then begin + chunk else |input|;
      for i := begin to end
        invariant |out| == i
        invariant forall k :: 0 <= k < i ==> out[k] == MaulFwdRerand(s, input[k], rho, ZeroPair(s, targetPk, zeros[k]))
      {
        var pre := ZeroPair(s, targetPk, zeros[i]);
        out := out + [MaulFwdRerand(s, input[i], rho, pre)];
      }
      begin := end;
    }
  }

  method TransformFwdBlindBatch<T>(s: Scheme<T>, input: seq<Ct<T>>, rho: nat, sourcePk: T, targetPk: T,
                                   blinds: seq<nat>, encRnd: seq<nat>, zeros: seq<nat>, chunk: nat)
    returns (out: seq<Ct<T>>)
    requires |blinds| == |encRnd| == |zeros| == |input| && chunk >= 1
    ensures BlindDone(s, input, out, rho, sourcePk, targetPk, blinds, encRnd, zeros)
  {
    out := [];
    var begin := 0;
    while begin < |input|
      invariant |out| == begin <= |input|
      invariant forall i :: 0 <= i < begin ==>
        out[i] == MaulFwdRerand(s, AddCt(s, input[i], Encrypt(s, sourcePk, blinds[i], encRnd[i])), rho,
                                ZeroPair(s, targetPk, zeros[i]))
    {
      var end := if begin + chunk < |input| then begin + chunk else |input|;
      for i := begin to end
        invariant |out| == i
        invariant forall k :: 0 <= k < i ==>
          out[k] == MaulFwdRerand(s, AddCt(s, input[k], Encrypt(s, sourcePk, blinds[k], encRnd[k])), rho,
                                  ZeroPair(s, targetPk, zeros[k]))
      {
        var encBlind := Encrypt(s, sourcePk, blinds[i], encRnd[i]);
        var added := AddCt(s, input[i], encBlind);
        var pre := ZeroPair(s, targetPk, zeros[i]);
        out := out + [MaulFwdRerand(s, added, rho, pre)];
      }
      begin := end;
    }
  }

  method TransformInvBatch<T>(s: Scheme<T>, input: seq<Ct<T>>, rho: nat, targetPk: T, zeros: seq<nat>, chunk: nat)
    returns (out: seq<Ct<T>>)
    requires |zeros| == |input| && chunk >= 1
    ensures InvDone(s, input, out, rho, targetPk, zeros)
  {
    out := [];
    var begin := 0;
    while begin < |input|
      invariant |out| == begin <= |input|
      invariant forall i :: 0 <= i < begin ==>
        out[i] == MaulInvRerand(s, input[i], rho, ZeroPair(s, targetPk, zeros[i]))
    {
      var end := if begin + chunk < |input| then begin + chunk else |input|;
      for i := begin to end
        invariant |out| == i
        invariant forall k :: 0 <= k < i ==> out[k] == MaulInvRerand(s, input[k], rho, ZeroPair(s, targetPk, zeros[k]))
      {
        var pre := ZeroPair(s, targetPk, zeros[i]);
        out := out + [MaulInvRerand(s, input[i], rho, pre)];
      }
      begin := end;
    }
  }

  method AddPlainBlindMod(values: seq<nat>, blinds: seq<nat>, q: nat) returns (res: Result<seq<nat>>)
    requires q > 0
    ensures res.Ok? <==> |values| == |blinds|
    ensures res.Ok? ==> |res.value| == |values|
    ensures res.Ok? ==> forall i :: 0 <= i < |values| ==> res.value[i] == (values[i] + blinds[i]) % q
  {
    if |values| != |blinds| { return Err("OLE3 plaintext blind size mismatch"); }
    var out: seq<nat> := [];
    for i := 0 to |values|
      invariant |out| == i
      invariant forall k :: 0 <= k < i ==> out[k] == (values[k] + blinds[k]) % q
    {
      out := out + [(values[i] + blinds[i]) % q];
    }
    res := Ok(out);
  }

  // ---- what the batches encrypt ----

  /** The i-th ciphertext is the encryption of ms[i] under k with randomness es[i]. */
  ghost predicate AllSealed<T>(s: Scheme<T>, cts: seq<Ct<T>>, es: seq<nat>, k: nat, ms: seq<nat>) {
    |cts| == |es| == |ms| && forall i :: 0 <= i < |cts| ==> Sealed(s, cts[i], es[i], k, ms[i])
  }

  function Plus(v: seq<nat>, w: seq<nat>): (r: seq<nat>)
    requires |v| == |w|
    ensures |r| == |v| && forall i :: 0 <= i < |v| ==> r[i] == v[i] + w[i]
  {
    seq(|v|, i requires 0 <= i < |v| => v[i] + w[i])
  }

  function TimesEach(v: seq<nat>, w: seq<nat>): (r: seq<nat>)
    requires |v| == |w|
    ensures |r| == |v| && forall i :: 0 <= i < |v| ==> r[i] == w[i] * v[i]
  {
    seq(|v|, i requires 0 <= i < |v| => Prod(w[i], v[i]))
  }

  lemma FwdKeeps<T(!new)>(s: Scheme<T>, input: seq<Ct<T>>, out: seq<Ct<T>>, es: seq<nat>, k: nat, rho: nat,
                          ms: seq<nat>, zeros: seq<nat>)
    requires SchemeOk(s) && TrivialLift(s) && AllSealed(s, input, es, k, ms)
    requires FwdDone(s, input, out, rho, MaulPk(s, Pw(s.g, s.h, k), rho), zeros)
    ensures AllSealed(s, out, Plus(es, zeros), k + rho, ms)
  {
    hide SchemeOk, TrivialLift, Sealed, MaulFwdRerand, ZeroPair, MaulPk, Pw;
    forall i | 0 <= i < |out| ensures Sealed(s, out[i], es[i] + zeros[i], k + rho, ms[i]) {
      ForwardSeals(s, input[i], es[i], k, rho, ms[i], zeros[i]);
    }
  }

  lemma InvKeeps<T(!new)>(s: Scheme<T>, input: seq<Ct<T>>, out: seq<Ct<T>>, es: seq<nat>, k: nat, rho: nat,
                          ms: seq<nat>, zeros: seq<nat>)
    requires SchemeOk(s) && TrivialLift(s) && AllSealed(s, input, es, k + rho, ms)
    requires InvDone(s, input, out, rho, Pw(s.g, s.h, k), zeros)
    ensures AllSealed(s, out, Plus(es, zeros), k, ms)
  {
    hide SchemeOk, TrivialLift, Sealed, MaulInvRerand, ZeroPair, Pw;
    forall i | 0 <= i < |out| ensures Sealed(s, out[i], es[i] + zeros[i], k, ms[i]) {
      InverseSeals(s, input[i], es[i], k, rho, ms[i], zeros[i]);
    }
  }

  lemma BlindKeeps<T(!new)>(s: Scheme<T>, input: seq<Ct<T>>, out: seq<Ct<T>>, es: seq<nat>, k: nat, rho: nat,
                            ms: seq<nat>, blinds: seq<nat>, encRnd: seq<nat>, zeros: seq<nat>)
    requires SchemeOk(s) && TrivialLift(s) && AllSealed(s, input, es, k, ms)
    requires BlindDone(s, input, out, rho, Pw(s.g, s.h, k), MaulPk(s, Pw(s.g, s.h, k), rho), blinds, encRnd, zeros)
    ensures |es| == |encRnd| == |zeros| && |ms| == |blinds|
    ensures AllSealed(s, out, Plus(Plus(es, encRnd), zeros), k + rho, Plus(ms, blinds))
  {
    hide SchemeOk, TrivialLift, Sealed, MaulFwdRerand, ZeroPair, MaulPk, Pw, Encrypt, AddCt;
    forall i | 0 <= i < |out| ensures Sealed(s, out[i], es[i] + encRnd[i] + zeros[i], k + rho, ms[i] + blinds[i]) {
      var e := Encrypt(s, Pw(s.g, s.h, k), blinds[i], encRnd[i]);
      EncryptSeals(s, k, blinds[i], encRnd[i]);
      AddSeals(s, input[i], e, es[i], encRnd[i], k, ms[i], blinds[i]);
      ForwardSeals(s, AddCt(s, input[i], e), es[i] + encRnd[i], k, rho, ms[i] + blinds[i], zeros[i]);
    }
  }

  // ---- the parties ----

  method EncryptAll<T(!new)>(s: Scheme<T>, pk: T, ghost k: nat, values: seq<nat>, rnd: seq<nat>)
    returns (cts: seq<Ct<T>>)
    requires SchemeOk(s) && pk == Pw(s.g, s.h, k) && |rnd| == |values|
    ensures AllSealed(s, cts, rnd, k, values)
  {
    hide SchemeOk, Sealed, Encrypt, Pw;
    cts := [];
    for i := 0 to |values|
      invariant |cts| == i
      invariant forall j :: 0 <= j < i ==> Sealed(s, cts[j], rnd[j], k, values[j])
    {
      EncryptSeals(s, k, values[i], rnd[i]);
      cts := cts + [Encrypt(s, pk, values[i], rnd[i])];
    }
  }

  /** The receiver: Enc(a*x + b + r). */
  method ReceiverCompute<T(!new)>(s: Scheme<T>, pk: T, ghost k: nat, encA: seq<Ct<T>>, encB: seq<Ct<T>>, x: seq<nat>,
                                  r: seq<nat>, rnd: seq<nat>, ghost eA: seq<nat>, ghost eB: seq<nat>,
                                  ghost a: seq<nat>, ghost b: seq<nat>)
    returns (y: seq<Ct<T>>)
    requires SchemeOk(s) && pk == Pw(s.g, s.h, k) && AllSealed(s, encA, eA, k, a) && AllSealed(s, encB, eB, k, b)
    requires |x| == |a| == |b| == |r| == |rnd| == |eA| == |eB|
    ensures AllSealed(s, y, Plus(Plus(TimesEach(eA, x), eB), rnd), k, Plus(Plus(TimesEach(a, x), b), r))
  {
    hide SchemeOk, Sealed, Encrypt, Pw, AddCt, CMult;
    ghost var e, m := Plus(Plus(TimesEach(eA, x), eB), rnd), Plus(Plus(TimesEach(a, x), b), r);
    y := [];
    for i := 0 to |x|
      invariant |y| == i
      invariant forall j :: 0 <= j < i ==> Sealed(s, y[j], e[j], k, m[j])
    {
      var encR := Encrypt(s, pk, r[i], rnd[i]);
      var ax := CMult(s, encA[i], x[i]);
      var u := AddCt(s, ax, encB[i]);
      ghost var p, d := TimesEach(a, x)[i], TimesEach(eA, x)[i];
      EncryptSeals(s, k, r[i], rnd[i]);
      CMultSeals(s, encA[i], eA[i], k, a[i], x[i], d, p);
      AddSeals(s, ax, encB[i], d, eB[i], k, p, b[i]);
      AddSeals(s, u, encR, d + eB[i], rnd[i], k, p + b[i], r[i]);
      y := y + [AddCt(s, u, encR)];
    }
  }

  method DecryptAll<T(!new)>(s: Scheme<T>, k: nat, cts: seq<Ct<T>>, ghost es: seq<nat>, ghost ms: seq<nat>)
    returns (z: seq<nat>)
    requires SchemeOk(s) && AllSealed(s, cts, es, k, ms)
    ensures s.q > 0 && |z| == |ms| && forall i :: 0 <= i < |ms| ==> z[i] == ms[i] % s.q
  {
    hide SchemeOk, Sealed, Decrypt;
    SchemeFacts(s);
    z := [];
    for i := 0 to |cts|
      invariant |z| == i
      invariant forall j :: 0 <= j < i ==> z[j] == ms[j] % s.q
    {
      SealedDecrypts(s, cts[i], es[i], k, ms[i]);
      z := z + [Decrypt(s, k, cts[i])];
    }
  }

  /** Everything one execution draws: the sender's key and encryption randomness, and for each firewall its mauling
      exponent, its two blinds, and the randomness of its ciphertext operations. */
  datatype Firewall = Firewall(rho: nat, aBlinds: seq<nat>, bBlinds: seq<nat>, blindRnd: seq<nat>,
                               zerosA: seq<nat>, zerosB: seq<nat>, zerosY: seq<nat>, chunk: nat)

  ghost predicate FirewallOk(w: Firewall, n: nat) {
    |w.aBlinds| == |w.bBlinds| == |w.blindRnd| == |w.zerosA| == |w.zerosB| == |w.zerosY| == n && w.chunk >= 1
  }

  /** The a-ciphertexts through one firewall: blinded under the old key, then aligned to the new one. */
  method AlignA<T(!new)>(s: Scheme<T>, w: Firewall, pk: T, pk': T, encA: seq<Ct<T>>, ghost es: seq<nat>, ghost k: nat,
                         ghost a: seq<nat>) returns (a': seq<Ct<T>>)
    requires SchemeOk(s) && TrivialLift(s) && pk == Pw(s.g, s.h, k) && pk' == MaulPk(s, pk, w.rho)
    requires FirewallOk(w, |a|) && |es| == |a| && AllSealed(s, encA, es, k, a)
    ensures AllSealed(s, a', Plus(Plus(es, w.blindRnd), w.zerosA), k + w.rho, Plus(a, w.aBlinds))
  {
    hide SchemeOk, TrivialLift, Sealed, BlindDone, Pw, MaulPk;
    a' := TransformFwdBlindBatch(s, encA, w.rho, pk, pk', w.aBlinds, w.blindRnd, w.zerosA, w.chunk);
    BlindKeeps(s, encA, a', es, k, w.rho, a, w.aBlinds, w.blindRnd, w.zerosA);
  }

  /** The b-ciphertexts are only aligned. */
  method AlignB<T(!new)>(s: Scheme<T>, w: Firewall, pk: T, pk': T, encB: seq<Ct<T>>, ghost es: seq<nat>, ghost k: nat,
                         ghost b: seq<nat>) returns (b': seq<Ct<T>>)
    requires SchemeOk(s) && TrivialLift(s) && pk == Pw(s.g, s.h, k) && pk' == MaulPk(s, pk, w.rho)
    requires FirewallOk(w, |b|) && |es| == |b| && AllSealed(s, encB, es, k, b)
    ensures AllSealed(s, b', Plus(es, w.zerosB), k + w.rho, b)
  {
    hide SchemeOk, TrivialLift, Sealed, FwdDone, Pw, MaulPk;
    b' := TransformFwdBatch(s, encB, w.rho, pk', w.zerosB, w.chunk);
    FwdKeeps(s, encB, b', es, k, w.rho, b, w.zerosB);
  }

  /** The masked answers on their way back. */
  method AlignY<T(!new)>(s: Scheme<T>, w: Firewall, pk: T, y: seq<Ct<T>>, ghost es: seq<nat>, ghost k: nat,
                         ghost m: seq<nat>) returns (y': seq<Ct<T>>)
    requires SchemeOk(s) && TrivialLift(s) && pk == Pw(s.g, s.h, k)
    requires FirewallOk(w, |m|) && |es| == |m| && AllSealed(s, y, es, k + w.rho, m)
    ensures AllSealed(s, y', Plus(es, w.zerosY), k, m)
  {
    hide SchemeOk, TrivialLift, Sealed, InvDone, Pw, MaulPk;
    y' := TransformInvBatch(s, y, w.rho, pk, w.zerosY, w.chunk);
    InvKeeps(s, y, y', es, k, w.rho, m, w.zerosY);
  }

  /** What the sender encrypts and what each party adds, by index. */
  datatype Inputs3 = Inputs3(a: seq<nat>, b: seq<nat>, x: seq<nat>, k: nat, rndA: seq<nat>, rndB: seq<nat>,
                             r: seq<nat>, rndR: seq<nat>)

  ghost predicate InputsOk(v: Inputs3, n: nat) {
    |v.a| == |v.b| == |v.x| == |v.rndA| == |v.rndB| == |v.r| == |v.rndR| == n
  }

  /** a + a' + a''. */
  ghost function Blinded(v: Inputs3, wS: Firewall, wR: Firewall): seq<nat>
    requires InputsOk(v, |v.a|) && FirewallOk(wS, |v.a|) && FirewallOk(wR, |v.a|)
  {
    Plus(Plus(v.a, wS.aBlinds), wR.aBlinds)
  }

  /** The randomness of the a-ciphertexts at the receiver: the sender's and what each firewall added. */
  ghost function RandomA(v: Inputs3, wS: Firewall, wR: Firewall): (e: seq<nat>)
    requires InputsOk(v, |v.a|) && FirewallOk(wS, |v.a|) && FirewallOk(wR, |v.a|)
    ensures |e| == |v.a|
  {
    Plus(Plus(Plus(Plus(v.rndA, wS.blindRnd), wS.zerosA), wR.blindRnd), wR.zerosA)
  }

  ghost function RandomB(v: Inputs3, wS: Firewall, wR: Firewall): (e: seq<nat>)
    requires InputsOk(v, |v.a|) && FirewallOk(wS, |v.a|) && FirewallOk(wR, |v.a|)
    ensures |e| == |v.a|
  {
    Plus(Plus(v.rndB, wS.zerosB), wR.zerosB)
  }

  /** Round 1: the encrypted coefficients reach the receiver through S-RF and R-RF. */
  method Round1<T(!new)>(s: Scheme<T>, v: Inputs3, wS: Firewall, wR: Firewall)
    returns (pk: T, pkS: T, pkR: T, encA: seq<Ct<T>>, encB: seq<Ct<T>>)
    requires SchemeOk(s) && TrivialLift(s) && InputsOk(v, |v.a|) && FirewallOk(wS, |v.a|) && FirewallOk(wR, |v.a|)
    ensures pk == Pw(s.g, s.h, v.k) && pkS == Pw(s.g, s.h, v.k + wS.rho) && pkR == Pw(s.g, s.h, v.k + wS.rho + wR.rho)
    ensures AllSealed(s, encA, RandomA(v, wS, wR), v.k + wS.rho + wR.rho, Blinded(v, wS, wR))
    ensures AllSealed(s, encB, RandomB(v, wS, wR), v.k + wS.rho + wR.rho, v.b)
  {
    hide SchemeOk, TrivialLift, AllSealed, Pw, MaulPk;
    pk := Pw(s.g, s.h, v.k);
    encA := EncryptAll(s, pk, v.k, v.a, v.rndA);
    encB := EncryptAll(s, pk, v.k, v.b, v.rndB);
    MaulPkCorrect(s, v.k, wS.rho);
    pkS := MaulPk(s, pk, wS.rho);
    encA := AlignA(s, wS, pk, pkS, encA, v.rndA, v.k, v.a);
    encB := AlignB(s, wS, pk, pkS, encB, v.rndB, v.k, v.b);
    MaulPkCorrect(s, v.k + wS.rho, wR.rho);
    pkR := MaulPk(s, pkS, wR.rho);
    encA := AlignA(s, wR, pkS, pkR, encA, Plus(Plus(v.rndA, wS.blindRnd), wS.zerosA), v.k + wS.rho,
                   Plus(v.a, wS.aBlinds));
    encB := AlignB(s, wR, pkS, pkR, encB, Plus(v.rndB, wS.zerosB), v.k + wS.rho, v.b);
  }

  /** ((a + a' + a'') * x + b) + r. */
  ghost function MaskedAnswer(v: Inputs3, wS: Firewall, wR: Firewall): (m: seq<nat>)
    requires InputsOk(v, |v.a|) && FirewallOk(wS, |v.a|) && FirewallOk(wR, |v.a|)
    ensures |m| == |v.a|
  {
    Plus(Plus(TimesEach(Blinded(v, wS, wR), v.x), v.b), v.r)
  }

  /** Rounds 1 and 2: what the sender decrypts. */
  method Rounds12<T(!new)>(s: Scheme<T>, v: Inputs3, wS: Firewall, wR: Firewall) returns (z: seq<nat>)
    requires SchemeOk(s) && TrivialLift(s) && InputsOk(v, |v.a|) && FirewallOk(wS, |v.a|) && FirewallOk(wR, |v.a|)
    ensures s.q > 0 && |z| == |v.a| && forall i :: 0 <= i < |v.a| ==> z[i] == MaskedAnswer(v, wS, wR)[i] % s.q
  {
    hide SchemeOk, TrivialLift, AllSealed, Pw, MaulPk;
    var pk, pkS, pkR, encA, encB := Round1(s, v, wS, wR);
    ghost var m, eA, eB := MaskedAnswer(v, wS, wR), RandomA(v, wS, wR), RandomB(v, wS, wR);
    ghost var e := Plus(Plus(TimesEach(eA, v.x), eB), v.rndR);
    var y := ReceiverCompute(s, pkR, v.k + wS.rho + wR.rho, encA, encB, v.x, v.r, v.rndR, eA, eB,
                             Blinded(v, wS, wR), v.b);
    y := AlignY(s, wR, pkS, y, e, v.k + wS.rho, m);
    y := AlignY(s, wS, pk, y, Plus(e, wR.zerosY), v.k, m);
    z := DecryptAll(s, v.k, y, Plus(Plus(e, wR.zerosY), wS.zerosY), m);
  }

  /** What reaches the receiver's output from z = m + r modulo q. */
  lemma Unmask(z: int, zS: int, zR: int, out: int, bS: int, bR: int, r: int, m: int, q: int)
    requires q > 0 && z == (m + r) % q && zS == (z + bS) % q && zR == (zS + bR) % q && out == (zR - r) % q
    ensures out == (m + bS + bR) % q
  {
    CongMod(m + r, q);
    CongAdd(z, m + r, bS, bS, q);
    CongMod(z + bS, q);
    CongAdd(zS, m + r + bS, bR, bR, q);
    CongMod(zS + bR, q);
    CongSub(zR, m + r + bS + bR, r, r, q);
  }

  /** The receiver's last loop. */
  method UnmaskAll(z: seq<nat>, r: seq<nat>, q: nat) returns (out: seq<int>)
    requires q > 0 && |z| == |r|
    ensures |out| == |z| && forall i :: 0 <= i < |z| ==> out[i] == (z[i] - r[i]) % q
  {
    out := [];
    for i := 0 to |z|
      invariant |out| == i
      invariant forall j :: 0 <= j < i ==> out[j] == (z[j] - r[j]) % q
    {
      out := out + [(z[i] - r[i]) % q];
    }
  }

  /** Round 3: the b-blinds are added to z on its way, and the receiver takes its own mask off. */
  method Round3(z: seq<nat>, bS: seq<nat>, bR: seq<nat>, r: seq<nat>, q: nat, ghost m: seq<nat>)
    returns (out: seq<int>)
    requires q > 0 && |z| == |bS| == |bR| == |r| == |m| && forall i :: 0 <= i < |z| ==> z[i] == (m[i] + r[i]) % q
    ensures |out| == |z| && forall i :: 0 <= i < |z| ==> out[i] == (m[i] + bS[i] + bR[i]) % q
  {
    var zS := AddPlainBlindMod(z, bS, q);
    var zR := AddPlainBlindMod(zS.value, bR, q);
    out := UnmaskAll(zR.value, r, q);
    forall i | 0 <= i < |z| ensures out[i] == (m[i] + bS[i] + bR[i]) % q {
      Unmask(z[i], zS.value[i], zR.value[i], out[i], bS[i], bR[i], r[i], m[i], q);
    }
  }

  /** One execution of the protocol, all parties in order: the receiver gets
      ((a + a' + a'') * x + b + b' + b'') mod q at every index, whatever is drawn. */
  method RunOle3<T(!new)>(s: Scheme<T>, v: Inputs3, wS: Firewall, wR: Firewall) returns (out: seq<int>)
    requires SchemeOk(s) && TrivialLift(s) && InputsOk(v, |v.a|) && FirewallOk(wS, |v.a|) && FirewallOk(wR, |v.a|)
    ensures s.q > 0 && |out| == |v.a|
    ensures forall i :: 0 <= i < |v.a| ==>
      out[i] == ((v.a[i] + wS.aBlinds[i] + wR.aBlinds[i]) * v.x[i] + v.b[i] + wS.bBlinds[i] + wR.bBlinds[i]) % s.q
  {
    hide SchemeOk, TrivialLift;
    var z := Rounds12(s, v, wS, wR);
    ghost var aa := Blinded(v, wS, wR);
    ghost var m := Plus(TimesEach(aa, v.x), v.b);
    out := Round3(z, wS.bBlinds, wR.bBlinds, v.r, s.q, m);
    forall i | 0 <= i < |v.a|
      ensures out[i] == ((v.a[i] + wS.aBlinds[i] + wR.aBlinds[i]) * v.x[i] + v.b[i] + wS.bBlinds[i] + wR.bBlinds[i]) % s.q
    {
      FinalTerm(aa[i], v.a[i] + wS.aBlinds[i] + wR.aBlinds[i], v.x[i], v.b[i], m[i]);
    }
  }

  lemma FinalTerm(aa: int, sum: int, x: int, b: int, m: int)
    requires aa == sum && m == x * aa + b
    ensures m == sum * x + b
  {
  }
}
