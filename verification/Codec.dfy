/** The wire format of integers and ciphertexts: a sign word, a length word and big-endian magnitude bytes, written
    and read through sockets that transfer any part of what is asked. */
module Codec {
  import opened ModArith
  import opened Results

  type byte = x: int | 0 <= x < 256

  // ---- numbers as bytes ----

  /** Big-endian magnitude without leading zeros; zero has no bytes. */
  function Bytes(n: nat): (b: seq<byte>)
    ensures |b| == 0 <==> n == 0
    ensures n > 0 ==> b[0] != 0
  {
    if n == 0 then [] else Bytes(n / 256) + [n % 256]
  }

  function Value(b: seq<byte>): nat {
    if |b| == 0 then 0 else Value(b[..|b| - 1]) * 256 + b[|b| - 1]
  }

  lemma {:induction false} ValueOfBytes(n: nat)
    ensures Value(Bytes(n)) == n
  {
    if n > 0 {
      ValueOfBytes(n / 256);
      assert Bytes(n)[..|Bytes(n)| - 1] == Bytes(n / 256);
    }
  }

  /** Only the canonical bytes of a number have no leading zero. */
  lemma {:induction false} BytesOfValue(b: seq<byte>)
    requires |b| == 0 || b[0] != 0
    ensures Bytes(Value(b)) == b
    decreases |b|
  {
    if |b| > 0 {
      var t, l := b[..|b| - 1], b[|b| - 1];
      BytesOfValue(t);
      ModUnique(Value(b), Value(t), l, 256);
      assert b == t + [l];
      if |t| == 0 {
        assert b[0] == l;
        assert Value(b) > 0;
      } else {
        assert Value(t) > 0;
      }
    }
  }

  function Word(v: nat): (b: seq<byte>)
    requires v < 0x1_0000_0000
    ensures |b| == 4
  {
    [v / 0x100_0000, v / 0x1_0000 % 256, v / 256 % 256, v % 256]
  }

  function WordValue(b: seq<byte>): nat
    requires |b| == 4
  {
    var x0: int, x1: int, x2: int, x3: int := b[0], b[1], b[2], b[3];
    x0 * 0x100_0000 + x1 * 0x1_0000 + x2 * 256 + x3
  }

  lemma WordRoundTrip(v: nat)
    requires v < 0x1_0000_0000
    ensures WordValue(Word(v)) == v
  {
    var t1, x3 := v / 256, v % 256;
    var t2, x2 := t1 / 256, t1 % 256;
    var t3, x1 := t2 / 256, t2 % 256;
    ModUnique(v, t2, x2 * 256 + x3, 0x1_0000);
    ModUnique(v, t3, x1 * 0x1_0000 + x2 * 256 + x3, 0x100_0000);
  }

  lemma WordUnique(b: seq<byte>)
    requires |b| == 4
    ensures WordValue(b) < 0x1_0000_0000 && Word(WordValue(b)) == b
  {
    var v := WordValue(b);
    var x0: int, x1: int, x2: int, x3: int := b[0], b[1], b[2], b[3];
    ModUnique(v, (x0 * 256 + x1) * 256 + x2, x3, 256);
    ModUnique((x0 * 256 + x1) * 256 + x2, x0 * 256 + x1, x2, 256);
    ModUnique(v, x0 * 256 + x1, x2 * 256 + x3, 0x1_0000);
    ModUnique(x0 * 256 + x1, x0, x1, 256);
    ModUnique(v, x0, x1 * 0x1_0000 + x2 * 256 + x3, 0x100_0000);
  }

  /** Words are in network order: the value of the four bytes, first byte highest. */
  lemma WordIsBigEndian(v: nat, b: seq<byte>)
    requires v < 0x1_0000_0000 && |b| == 4
    ensures Value(Word(v)) == v && WordValue(b) == Value(b)
  {
    WordRoundTrip(v);
    FourBytes(Word(v));
    FourBytes(b);
  }

  lemma FourBytes(b: seq<byte>)
    requires |b| == 4
    ensures Value(b) == WordValue(b)
  {
    assert b[..3][..2] == b[..2] && b[..2][..1] == b[..1] && b[..1][..0] == [];
    assert Value([]) == 0;
    assert Value(b[..1]) == b[0];
    assert Value(b[..2]) == Value(b[..1]) * 256 + b[1];
    assert Value(b[..3]) == Value(b[..2]) * 256 + b[2];
  }

  /** `mpz_sizeinbase(m, 2)`. */
  function Bits(n: nat): (r: nat)
    ensures r >= 1
  {
    if n < 2 then 1 else 1 + Bits(n / 2)
  }

  lemma HalfScaled(h: nat, n: nat, b: nat) returns (m: nat)
    requires h >= 1 && n >= 1
    ensures m == h * n >= 1 && 2 * h * n + b == 2 * m + b && (2 * m + b) / 2 == m + b / 2
  {
    m := h * n;
    assert m >= 1 by { assert h * n >= 1 * n; }
    assert 2 * h * n == 2 * m;
  }

  lemma BitsHalf(v: nat)
    requires v >= 2
    ensures Bits(v) == 1 + Bits(v / 2)
  {
  }

  lemma {:induction false} BitsScaled(n: nat, k: nat, b: nat)
    requires n >= 1 && b < Pow2(k)
    ensures Pow2(k) * n + b >= 1 && Bits(Pow2(k) * n + b) == k + Bits(n)
    decreases k
  {
    if k > 0 {
      var h := Pow2(k - 1);
      assert Pow2(k) == 2 * h;
      hide *;
      var m := HalfScaled(h, n, b);
      BitsScaled(n, k - 1, b / 2);
      BitsHalf(2 * m + b);
    }
  }

  lemma Pow2Is256()
    ensures Pow2(8) == 256
  {
    assert Pow2(2) == 4 && Pow2(4) == 16 && Pow2(6) == 64;
  }

  lemma {:induction false} BitsOfBytes(n: nat)
    requires n > 0
    ensures Bits(n) == 8 * (|Bytes(n)| - 1) + Bits(Bytes(n)[0])
  {
    if n >= 256 {
      BitsOfBytes(n / 256);
      Pow2Is256();
      BitsScaled(n / 256, 8, n % 256);
      assert n == 256 * (n / 256) + n % 256;
    } else {
      assert Bytes(n / 256) == [];
    }
  }

  lemma BitsOfByte(b: byte)
    requires b > 0
    ensures 1 <= Bits(b) <= 8 && (Bits(b) == 8 <==> b >= 128)
  {
    assert Bits(b / 64) == if b / 64 < 2 then 1 else 2;
    assert b >= 2 ==> Bits(b) == 1 + Bits(b / 2);
    assert b >= 4 ==> Bits(b / 2) == 1 + Bits(b / 2 / 2);
    assert b >= 8 ==> Bits(b / 2 / 2) == 1 + Bits(b / 2 / 2 / 2);
    assert b >= 16 ==> Bits(b / 2 / 2 / 2) == 1 + Bits(b / 2 / 2 / 2 / 2);
    assert b >= 32 ==> Bits(b / 2 / 2 / 2 / 2) == 1 + Bits(b / 2 / 2 / 2 / 2 / 2);
    assert b >= 64 ==> Bits(b / 2 / 2 / 2 / 2 / 2) == 1 + Bits(b / 2 / 2 / 2 / 2 / 2 / 2);
    assert b >= 128 ==> Bits(b / 2 / 2 / 2 / 2 / 2 / 2) == 1 + Bits(b / 2 / 2 / 2 / 2 / 2 / 2 / 2);
  }

  // ---- integers on the wire ----

  function Abs(m: int): nat { if m < 0 then -m else m }

  /** The one encoding of m. */
  function Wire(m: int): seq<byte>
    requires |Bytes(Abs(m))| < 0x1_0000_0000
  {
    Word(if m < 0 then 1 else 0) + Word(|Bytes(Abs(m))|) + Bytes(Abs(m))
  }

  /** The layout, byte by byte: a sign word of 0 or 1, a word with the number of magnitude bytes, and the magnitude,
      all big-endian and the magnitude without leading zero. */
  ghost predicate Layout(w: seq<byte>, m: int) {
    && |w| >= 8 && Value(w[..4]) == (if m < 0 then 1 else 0) && Value(w[4..8]) == |w| - 8
    && Value(w[8..]) == Abs(m) && (|w| > 8 ==> w[8] != 0)
  }

  lemma WireLayout(m: int)
    requires |Bytes(Abs(m))| < 0x1_0000_0000
    ensures Layout(Wire(m), m)
  {
    var w, b := Wire(m), Bytes(Abs(m));
    assert w[..4] == Word(if m < 0 then 1 else 0) && w[4..8] == Word(|b|) && w[8..] == b;
    WordIsBigEndian(if m < 0 then 1 else 0, w[..4]);
    WordIsBigEndian(|b|, w[..4]);
    ValueOfBytes(Abs(m));
  }

  /** No other bytes have that layout. */
  lemma LayoutUnique(w: seq<byte>, m: int)
    requires Layout(w, m)
    ensures Bytes(Abs(m)) == w[8..] && |w| - 8 < 0x1_0000_0000 && w == Wire(m)
  {
    hide *;
    LayoutParts(w, m);
    BytesOfValue(w[8..]);
    WordOfValue(w[..4]);
    WordOfValue(w[4..8]);
    WireParts(m);
  }

  lemma LayoutParts(w: seq<byte>, m: int)
    requires Layout(w, m)
    ensures |w| >= 8 && Value(w[..4]) == (if m < 0 then 1 else 0) && Value(w[4..8]) == |w[8..]| == |w| - 8
    ensures Value(w[8..]) == Abs(m) && (|w[8..]| > 0 ==> w[8..][0] != 0) && w == w[..4] + w[4..8] + w[8..]
  {
    hide Value, Abs;
  }

  lemma WordOfValue(b: seq<byte>)
    requires |b| == 4
    ensures 0 <= Value(b) < 0x1_0000_0000 && b == Word(Value(b))
  {
    WordIsBigEndian(0, b);
    WordUnique(b);
    hide *;
  }

  lemma WireParts(m: int)
    requires |Bytes(Abs(m))| < 0x1_0000_0000
    ensures Wire(m) == Word(if m < 0 then 1 else 0) + Word(|Bytes(Abs(m))|) + Bytes(Abs(m))
  {
    hide Word, Bytes, Abs;
  }

  /** What the sender refuses to encode. */
  predicate TooLarge(limit: nat, m: int) {
    Bits(Abs(m)) / 8 + 1 > limit
  }

  /** The sender stops one bit short of what the receiver would accept: exactly a full top byte in the last place. */
  lemma SenderStricter(limit: nat, m: int)
    requires limit >= 1
    ensures TooLarge(limit, m) <==>
      |Bytes(Abs(m))| > limit || (|Bytes(Abs(m))| == limit && Bytes(Abs(m))[0] >= 128)
  {
    if m != 0 {
      BitsOfBytes(Abs(m));
      BitsOfByte(Bytes(Abs(m))[0]);
    }
  }

  /** Reading one integer off the front of the stream; a stream that ends early is an error. */
  function Decode(limit: nat, w: seq<byte>): Result<(int, seq<byte>)> {
    if |w| < 8 then Err("read")
    else
      var neg, count := WordValue(w[..4]), WordValue(w[4..8]);
      if neg > 1 || count > limit then Err("invalid sign or oversized integer encoding")
      else if |w| < 8 + count then Err("read")
      else if count > 0 && w[8] == 0 then Err("noncanonical integer encoding")
      else if neg == 1 && count == 0 then Err("noncanonical negative zero")
      else
        var v: int := Value(w[8..8 + count]);
        Ok((if neg == 1 then -v else v, w[8 + count..]))
  }

  /** Whatever is sent is read back, and nothing behind it is touched. */
  lemma DecodeWire(limit: nat, m: int, rest: seq<byte>)
    requires limit < 0x1_0000_0000 && |Bytes(Abs(m))| <= limit
    ensures Decode(limit, Wire(m) + rest) == Ok((m, rest))
  {
    var b := Bytes(Abs(m));
    var w := Wire(m) + rest;
    assert w[..4] == Word(if m < 0 then 1 else 0);
    assert w[4..8] == Word(|b|);
    assert w[8..8 + |b|] == b && w[8 + |b|..] == rest;
    WordRoundTrip(if m < 0 then 1 else 0);
    WordRoundTrip(|b|);
    ValueOfBytes(Abs(m));
    if |b| > 0 { assert w[8] == b[0]; }
  }

  /** Only canonical encodings are accepted: an accepted prefix is the encoding of the value it yields. */
  lemma OnlyCanonical(limit: nat, w: seq<byte>)
    requires limit < 0x1_0000_0000 && Decode(limit, w).Ok?
    ensures var (m, rest) := Decode(limit, w).value;
      |Bytes(Abs(m))| <= limit && w == Wire(m) + rest
  {
    var neg, count := WordValue(w[..4]), WordValue(w[4..8]);
    var b := w[8..8 + count];
    var (m, rest) := Decode(limit, w).value;
    WordUnique(w[..4]);
    WordUnique(w[4..8]);
    if count > 0 { assert b[0] == w[8]; }
    BytesOfValue(b);
    assert Abs(m) == Value(b);
    assert count > 0 ==> Value(b) > 0;
    assert w == w[..4] + w[4..8] + b + rest;
  }

  /** The receiver accepts exactly the streams that begin with that layout. */
  lemma DecodesLayout(limit: nat, w: seq<byte>, k: nat, m: int)
    requires limit < 0x1_0000_0000 && k <= |w| && k <= limit + 8 && Layout(w[..k], m)
    ensures Decode(limit, w) == Ok((m, w[k..]))
  {
    LayoutUnique(w[..k], m);
    DecodeWire(limit, m, w[k..]);
    assert w == w[..k] + w[k..];
  }

  lemma DecodedLayout(limit: nat, w: seq<byte>)
    requires limit < 0x1_0000_0000 && Decode(limit, w).Ok?
    ensures var (m, rest) := Decode(limit, w).value;
      var k := |w| - |rest|;
      8 <= k <= limit + 8 && w[k..] == rest && Layout(w[..k], m)
  {
    OnlyCanonical(limit, w);
    var (m, rest) := Decode(limit, w).value;
    WireLayout(m);
    assert w[..|w| - |rest|] == Wire(m);
  }

  // ---- sockets ----

  /** A connected socket: what the peer has sent and what was sent to it. Calls may be interrupted, but only
      finitely often, and transfer any positive part of what is asked. */
  class Socket {
    var incoming: seq<byte>
    var outgoing: seq<byte>
    var open: bool
    var interrupts: nat

    constructor ()
      ensures incoming == [] && outgoing == [] && open
    {
      incoming, outgoing, open, interrupts := [], [], true, 0;
    }

    /** `read`: -1 when interrupted, 0 at the end of the stream, otherwise the number of bytes delivered. */
    method Read(len: nat) returns (r: int, buf: seq<byte>)
      requires len > 0
      modifies this
      ensures outgoing == old(outgoing) && open == old(open)
      ensures -1 <= r <= len && (r == -1 ==> interrupts < old(interrupts) && incoming == old(incoming))
      ensures r >= 0 ==> interrupts == old(interrupts) && |buf| == r && old(incoming) == buf + incoming
      ensures r == 0 ==> old(incoming) == []
    {
      buf := [];
      var interrupted: bool := *;
      if interrupted && interrupts > 0 {
        interrupts := interrupts - 1;
        return -1, buf;
      }
      var k: nat :| k <= len && k <= |incoming| && (k == 0 ==> incoming == []);
      buf := incoming[..k];
      incoming := incoming[k..];
      r := k;
    }

    /** `send`: -1 when interrupted, 0 when the connection is gone, otherwise the number of bytes taken. */
    method Send(buf: seq<byte>) returns (r: int)
      requires |buf| > 0
      modifies this
      ensures incoming == old(incoming) && open == old(open)
      ensures -1 <= r <= |buf| && (r == -1 ==> interrupts < old(interrupts) && outgoing == old(outgoing))
      ensures r >= 0 ==> interrupts == old(interrupts) && outgoing == old(outgoing) + buf[..r]
      ensures r == 0 ==> !open
      ensures r > 0 ==> open
    {
      var interrupted: bool := *;
      if interrupted && interrupts > 0 {
        interrupts := interrupts - 1;
        return -1;
      }
      if !open { return 0; }
      var k: nat :| 0 < k <= |buf|;
      outgoing := outgoing + buf[..k];
      r := k;
    }
  }

  /** Loops over partial reads until exactly len bytes are in. */
  method RecvAll(fd: Socket, len: nat) returns (res: Result<seq<byte>>)
    modifies fd
    ensures fd.outgoing == old(fd.outgoing) && fd.open == old(fd.open)
    ensures res.Ok? <==> |old(fd.incoming)| >= len
    ensures res.Ok? ==> |res.value| == len && old(fd.incoming) == res.value + fd.incoming
  {
    var got: seq<byte> := [];
    while |got| < len
      invariant |got| <= len && old(fd.incoming) == got + fd.incoming
      invariant fd.outgoing == old(fd.outgoing) && fd.open == old(fd.open)
      decreases len - |got|, fd.interrupts
    {
      var r, buf := fd.Read(len - |got|);
      if r == 0 { return Err("read"); }
      if r > 0 { got := got + buf; }
    }
    res := Ok(got);
  }

  /** Loops over partial writes until everything is out. */
  method SendAll(fd: Socket, data: seq<byte>) returns (res: Result<()>)
    modifies fd
    ensures fd.incoming == old(fd.incoming) && fd.open == old(fd.open)
    ensures res.Ok? <==> data == [] || fd.open
    ensures res.Ok? ==> fd.outgoing == old(fd.outgoing) + data
  {
    var sent := 0;
    while sent < |data|
      invariant 0 <= sent <= |data| && fd.outgoing == old(fd.outgoing) + data[..sent]
      invariant fd.incoming == old(fd.incoming) && fd.open == old(fd.open) && (sent > 0 ==> fd.open)
      decreases |data| - sent, fd.interrupts
    {
      var r := fd.Send(data[sent..]);
      if r == 0 { return Err("write"); }
      if r > 0 {
        assert data[..sent] + data[sent..][..r] == data[..sent + r];
        sent := sent + r;
      }
    }
    assert data[..|data|] == data;
    res := Ok(());
  }

  method SendMpz(fd: Socket, limit: nat, m: int) returns (res: Result<()>)
    requires 1 <= limit < 0x1_0000_0000
    modifies fd
    ensures fd.incoming == old(fd.incoming) && fd.open == old(fd.open)
    ensures res.Ok? <==> !TooLarge(limit, m) && fd.open
    ensures res.Ok? ==> |Bytes(Abs(m))| <= limit && fd.outgoing == old(fd.outgoing) + Wire(m)
    ensures res.Ok? ==> Layout(fd.outgoing[|old(fd.outgoing)|..], m)
  {
    hide Value, Bytes, Bits, Word, Layout, TooLarge;
    SenderStricter(limit, m);
    if TooLarge(limit, m) { return Err("integer encoding exceeds CG_MAX_MPZ_BYTES"); }
    ghost var before := fd.outgoing;
    WireLayout(m);
    var b := Bytes(Abs(m));
    res := SendAll(fd, Word(if m < 0 then 1 else 0));
    if res.Err? { return; }
    res := SendAll(fd, Word(|b|));
    if res.Err? { return; }
    if |b| > 0 { res := SendAll(fd, b); }
    assert res.Ok? ==> fd.outgoing == before + Wire(m) && fd.outgoing[|before|..] == Wire(m);
  }

  /** The first k bytes of the stream are the layout of m, within the limit. */
  ghost predicate Accepts(limit: nat, w: seq<byte>, k: int, m: int) {
    8 <= k <= |w| && k <= limit + 8 && Layout(w[..k], m)
  }

  lemma AcceptsLayouts(limit: nat, w: seq<byte>)
    requires limit < 0x1_0000_0000
    ensures Decode(limit, w).Ok? ==>
      var (m, rest) := Decode(limit, w).value; exists k :: Accepts(limit, w, k, m) && rest == w[k..]
    ensures Decode(limit, w).Err? ==> forall k, m :: !Accepts(limit, w, k, m)
  {
    hide Layout, Decode;
    if Decode(limit, w).Ok? {
      DecodedLayout(limit, w);
      var (m, rest) := Decode(limit, w).value;
      assert Accepts(limit, w, |w| - |rest|, m);
    } else {
      forall k, m ensures !Accepts(limit, w, k, m) {
        if Accepts(limit, w, k, m) { DecodesLayout(limit, w, k, m); }
      }
    }
  }

  method RecvMpz(fd: Socket, limit: nat) returns (res: Result<int>)
    requires 1 <= limit < 0x1_0000_0000
    modifies fd
    ensures fd.outgoing == old(fd.outgoing) && fd.open == old(fd.open)
    ensures res.Ok? <==> Decode(limit, old(fd.incoming)).Ok?
    ensures res.Ok? ==> Decode(limit, old(fd.incoming)).value == (res.value, fd.incoming)
    ensures res.Ok? ==> exists k :: Accepts(limit, old(fd.incoming), k, res.value) && fd.incoming == old(fd.incoming)[k..]
    ensures res.Err? ==> forall k, m :: !Accepts(limit, old(fd.incoming), k, m)
  {
    ghost var w := fd.incoming;
    AcceptsLayouts(limit, w);
    hide Accepts, Value, WordValue;
    var s := RecvAll(fd, 4);
    if s.Err? { return Err(s.message); }
    assert w[..4] == s.value && w[4..] == fd.incoming;
    var c := RecvAll(fd, 4);
    if c.Err? { return Err(c.message); }
    assert w[4..8] == c.value && w[8..] == fd.incoming;
    var neg, count := WordValue(s.value), WordValue(c.value);
    if neg > 1 || count > limit { return Err("invalid sign or oversized integer encoding"); }
    var m: int := 0;
    if count > 0 {
      var buf := RecvAll(fd, count);
      if buf.Err? { return Err(buf.message); }
      assert w[8..8 + count] == buf.value && w[8 + count..] == fd.incoming;
      if buf.value[0] == 0 { return Err("noncanonical integer encoding"); }
      m := Value(buf.value);
    }
    if neg == 1 && count == 0 { return Err("noncanonical negative zero"); }
    res := Ok(if neg == 1 then -m else m);
  }

  // ---- forms and ciphertexts ----

  datatype Form = Form(a: int, b: int, c: int)

  ghost predicate Fit(limit: nat, ms: seq<int>) {
    forall i :: 0 <= i < |ms| ==> |Bytes(Abs(ms[i]))| <= limit
  }

  function WireAll(limit: nat, ms: seq<int>): seq<byte>
    requires limit < 0x1_0000_0000 && Fit(limit, ms)
  {
    if |ms| == 0 then [] else Wire(ms[0]) + WireAll(limit, ms[1..])
  }

  function DecodeAll(limit: nat, k: nat, w: seq<byte>): Result<(seq<int>, seq<byte>)> {
    if k == 0 then Ok(([], w))
    else
      match Decode(limit, w)
      case Err(e) => Err(e)
      case Ok((m, rest)) =>
        match DecodeAll(limit, k - 1, rest)
        case Err(e) => Err(e)
        case Ok((ms, rest')) => Ok(([m] + ms, rest'))
  }

  lemma DecodeAllStep(limit: nat, k: nat, w: seq<byte>)
    requires k > 0
    ensures DecodeAll(limit, k, w).Ok? <==>
      Decode(limit, w).Ok? && DecodeAll(limit, k - 1, Decode(limit, w).value.1).Ok?
    ensures DecodeAll(limit, k, w).Ok? ==>
      var (m, tail) := Decode(limit, w).value;
      var (ms, rest) := DecodeAll(limit, k - 1, tail).value;
      DecodeAll(limit, k, w).value == ([m] + ms, rest)
  {
  }

  /** Framing: any number of integers in a row, such as the six of a ciphertext, come back one by one. */
  lemma {:induction false} DecodeWireAll(limit: nat, ms: seq<int>, rest: seq<byte>)
    requires limit < 0x1_0000_0000 && Fit(limit, ms)
    ensures DecodeAll(limit, |ms|, WireAll(limit, ms) + rest) == Ok((ms, rest))
    decreases |ms|
  {
    hide Decode, Wire, Bytes;
    if |ms| == 0 {
      assert WireAll(limit, ms) + rest == rest;
    } else {
      var tail := WireAll(limit, ms[1..]) + rest;
      var w := WireAll(limit, ms) + rest;
      assert w == Wire(ms[0]) + tail;
      DecodeWire(limit, ms[0], tail);
      DecodeWireAll(limit, ms[1..], rest);
      DecodeAllStep(limit, |ms|, w);
      assert [ms[0]] + ms[1..] == ms;
    }
  }

  /** And nothing but the sender's own bytes decodes to them. */
  lemma {:induction false} OnlyCanonicalAll(limit: nat, k: nat, w: seq<byte>)
    requires limit < 0x1_0000_0000 && DecodeAll(limit, k, w).Ok?
    ensures var (ms, rest) := DecodeAll(limit, k, w).value;
      |ms| == k && Fit(limit, ms) && w == WireAll(limit, ms) + rest
    decreases k
  {
    hide Decode, Wire, Bytes;
    if k > 0 {
      DecodeAllStep(limit, k, w);
      var (m, tail) := Decode(limit, w).value;
      OnlyCanonical(limit, w);
      OnlyCanonicalAll(limit, k - 1, tail);
      var (ms, rest) := DecodeAll(limit, k - 1, tail).value;
      assert ([m] + ms)[1..] == ms;
      assert w == Wire(m) + (WireAll(limit, ms) + rest) == (Wire(m) + WireAll(limit, ms)) + rest;
    }
  }

  // ---- forms and ciphertexts through a socket ----

  method SendQfi(fd: Socket, limit: nat, q: Form) returns (res: Result<()>)
    requires 1 <= limit < 0x1_0000_0000
    modifies fd
    ensures fd.incoming == old(fd.incoming) && fd.open == old(fd.open)
    ensures res.Ok? <==> !TooLarge(limit, q.a) && !TooLarge(limit, q.b) && !TooLarge(limit, q.c) && fd.open
    ensures res.Ok? ==> |Bytes(Abs(q.a))| <= limit && |Bytes(Abs(q.b))| <= limit && |Bytes(Abs(q.c))| <= limit
    ensures res.Ok? ==> fd.outgoing == old(fd.outgoing) + Wire(q.a) + Wire(q.b) + Wire(q.c)
  {
    hide Wire, Layout, TooLarge, Bytes;
    res := SendMpz(fd, limit, q.a);
    if res.Err? { return; }
    res := SendMpz(fd, limit, q.b);
    if res.Err? { return; }
    res := SendMpz(fd, limit, q.c);
  }

  /** A ciphertext: the three integers of its first form, then those of its second. */
  method SendCt(fd: Socket, limit: nat, c1: Form, c2: Form) returns (res: Result<()>)
    requires 1 <= limit < 0x1_0000_0000
    modifies fd
    ensures fd.incoming == old(fd.incoming) && fd.open == old(fd.open)
    ensures res.Ok? ==> Fit(limit, [c1.a, c1.b, c1.c, c2.a, c2.b, c2.c])
    ensures res.Ok? ==> fd.outgoing == old(fd.outgoing) + WireAll(limit, [c1.a, c1.b, c1.c, c2.a, c2.b, c2.c])
    ensures res.Ok? <==> fd.open && forall i :: 0 <= i < 6 ==>
      !TooLarge(limit, [c1.a, c1.b, c1.c, c2.a, c2.b, c2.c][i])
  {
    hide Wire, TooLarge, Bytes;
    ghost var ms := [c1.a, c1.b, c1.c, c2.a, c2.b, c2.c];
    assert ms[0] == c1.a && ms[1] == c1.b && ms[2] == c1.c && ms[3] == c2.a && ms[4] == c2.b && ms[5] == c2.c;
    res := SendQfi(fd, limit, c1);
    if res.Err? { return; }
    res := SendQfi(fd, limit, c2);
    if res.Err? { return; }
    WireSix(limit, c1.a, c1.b, c1.c, c2.a, c2.b, c2.c);
  }

  lemma WireSix(limit: nat, a: int, b: int, c: int, d: int, e: int, f: int)
    requires limit < 0x1_0000_0000 && Fit(limit, [a, b, c, d, e, f])
    ensures Fit(limit, [a]) && Fit(limit, [b]) && Fit(limit, [c]) && Fit(limit, [d]) && Fit(limit, [e]) && Fit(limit, [f])
    ensures |Bytes(Abs(a))| <= limit && |Bytes(Abs(b))| <= limit && |Bytes(Abs(c))| <= limit
    ensures |Bytes(Abs(d))| <= limit && |Bytes(Abs(e))| <= limit && |Bytes(Abs(f))| <= limit
    ensures WireAll(limit, [a, b, c, d, e, f]) == Wire(a) + Wire(b) + Wire(c) + Wire(d) + Wire(e) + Wire(f)
  {
    hide Wire, Bytes;
    var ms := [a, b, c, d, e, f];
    assert |Bytes(Abs(ms[0]))| <= limit && |Bytes(Abs(ms[1]))| <= limit && |Bytes(Abs(ms[2]))| <= limit;
    assert |Bytes(Abs(ms[3]))| <= limit && |Bytes(Abs(ms[4]))| <= limit && |Bytes(Abs(ms[5]))| <= limit;
    assert ms[1..] == [b, c, d, e, f] && [b, c, d, e, f][1..] == [c, d, e, f] && [c, d, e, f][1..] == [d, e, f];
    assert [d, e, f][1..] == [e, f] && [e, f][1..] == [f] && [f][1..] == [];
    assert WireAll(limit, []) == [];
    assert WireAll(limit, [f]) == Wire(f);
    assert WireAll(limit, [e, f]) == Wire(e) + Wire(f);
    assert WireAll(limit, [d, e, f]) == Wire(d) + (Wire(e) + Wire(f));
    assert WireAll(limit, [c, d, e, f]) == Wire(c) + (Wire(d) + (Wire(e) + Wire(f)));
    assert WireAll(limit, [b, c, d, e, f]) == Wire(b) + (Wire(c) + (Wire(d) + (Wire(e) + Wire(f))));
  }

  method RecvQfi(fd: Socket, limit: nat) returns (res: Result<Form>)
    requires 1 <= limit < 0x1_0000_0000
    modifies fd
    ensures fd.outgoing == old(fd.outgoing) && fd.open == old(fd.open)
    ensures res.Ok? <==> DecodeAll(limit, 3, old(fd.incoming)).Ok?
    ensures res.Ok? ==> var q := res.value;
      DecodeAll(limit, 3, old(fd.incoming)).value == ([q.a, q.b, q.c], fd.incoming)
  {
    hide Decode, Accepts, DecodeAll;
    ghost var w := fd.incoming;
    DecodeAllStep(limit, 3, w);
    var a := RecvMpz(fd, limit);
    if a.Err? { return Err(a.message); }
    DecodeAllStep(limit, 2, fd.incoming);
    var b := RecvMpz(fd, limit);
    if b.Err? { return Err(b.message); }
    DecodeAllStep(limit, 1, fd.incoming);
    var c := RecvMpz(fd, limit);
    if c.Err? { return Err(c.message); }
    DecodeNone(limit, fd.incoming);
    assert [a.value] + ([b.value] + ([c.value] + [])) == [a.value, b.value, c.value];
    res := Ok(Form(a.value, b.value, c.value));
  }

  lemma DecodeNone(limit: nat, w: seq<byte>)
    ensures DecodeAll(limit, 0, w) == Ok(([], w))
  {
  }

  lemma {:induction false} DecodeSplit(limit: nat, j: nat, k: nat, w: seq<byte>)
    ensures DecodeAll(limit, j + k, w).Ok? <==>
      DecodeAll(limit, j, w).Ok? && DecodeAll(limit, k, DecodeAll(limit, j, w).value.1).Ok?
    ensures DecodeAll(limit, j + k, w).Ok? ==>
      var (ms, tail) := DecodeAll(limit, j, w).value;
      var (ns, rest) := DecodeAll(limit, k, tail).value;
      DecodeAll(limit, j + k, w).value == (ms + ns, rest)
    decreases j
  {
    hide Decode, DecodeAll;
    DecodeNone(limit, w);
    if j > 0 {
      DecodeAllStep(limit, j, w);
      DecodeAllStep(limit, j + k, w);
      if Decode(limit, w).Ok? {
        var (m, tail) := Decode(limit, w).value;
        DecodeSplit(limit, j - 1, k, tail);
        if DecodeAll(limit, j + k, w).Ok? {
          var ms, ns := DecodeAll(limit, j - 1, tail).value.0, DecodeAll(limit, j - 1 + k, tail).value.0;
          var os := DecodeAll(limit, k, DecodeAll(limit, j - 1, tail).value.1).value.0;
          assert [m] + (ms + os) == ([m] + ms) + os;
        }
      }
    } else if DecodeAll(limit, k, w).Ok? {
      assert [] + DecodeAll(limit, k, w).value.0 == DecodeAll(limit, k, w).value.0;
    }
  }

  /** The receiver takes exactly the six integers off the stream, or reports an error exactly when they are not there. */
  method RecvCt(fd: Socket, limit: nat) returns (res: Result<(Form, Form)>)
    requires 1 <= limit < 0x1_0000_0000
    modifies fd
    ensures fd.outgoing == old(fd.outgoing) && fd.open == old(fd.open)
    ensures res.Ok? <==> DecodeAll(limit, 6, old(fd.incoming)).Ok?
    ensures res.Ok? ==> var (c1, c2) := res.value;
      DecodeAll(limit, 6, old(fd.incoming)).value == ([c1.a, c1.b, c1.c, c2.a, c2.b, c2.c], fd.incoming)
  {
    hide DecodeAll;
    DecodeSplit(limit, 3, 3, fd.incoming);
    var c1 := RecvQfi(fd, limit);
    if c1.Err? { return Err(c1.message); }
    var c2 := RecvQfi(fd, limit);
    if c2.Err? { return Err(c2.message); }
    var p, r := c1.value, c2.value;
    assert [p.a, p.b, p.c] + [r.a, r.b, r.c] == [p.a, p.b, p.c, r.a, r.b, r.c];
    res := Ok((p, r));
  }
}
