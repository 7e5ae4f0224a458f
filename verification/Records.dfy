/** tunnel/tunnel.go, as functions: the nonce counter, the record format and what a reader recovers from a stream. */
module Records {
  import opened Bytes

  const PAYLOAD_SIZE_MASK := 0x7FFF

  /** An authenticated cipher under one key. seal and open are given a nonce and a text. */
  datatype Aead = Aead(
    overhead: nat,
    nonceSize: nat,
    seal: (seq<Byte>, seq<Byte>) -> seq<Byte>,
    open: (seq<Byte>, seq<Byte>) -> Option<seq<Byte>>)
  {
    ghost predicate Lawful() {
      && (forall n, p :: |seal(n, p)| == |p| + overhead && open(n, seal(n, p)) == Some(p))
      && (forall n, c :: open(n, c).Some? ==> |c| == |open(n, c).value| + overhead)
    }
  }

  /** Key derivation: the AEAD used with a salt, the same for both ends. */
  datatype Cipher = Cipher(saltSize: nat, derive: seq<Byte> -> Aead)
  {
    ghost predicate Lawful() {
      forall salt :: derive(salt).Lawful()
    }
  }

  /** Lawful ciphers exist: the one that changes nothing, for a start. */
  lemma LawfulCipherExists() returns (c: Cipher)
    ensures c.Lawful()
  {
    c := Cipher(0, salt => Aead(0, 0, (n, p) => p, (n, t) => Some(t)));
  }

  /** The nonce after k increments of the all-zero nonce. */
  function Nonce(size: nat, k: nat): (n: seq<Byte>)
    ensures |n| == size
  {
    if k == 0 then seq(size, i => 0) else Incremented(Nonce(size, k - 1))
  }

  function Incremented(s: seq<Byte>): (r: seq<Byte>)
    ensures |r| == |s|
  {
    if s == [] then []
    else if s[0] == 255 then [0] + Incremented(s[1..])
    else [s[0] + 1] + s[1..]
  }

  /** b++ on a byte. */
  function Bump(b: Byte): Byte {
    if b == 255 then 0 else b + 1
  }

  /** What becomes of s when its bytes before i are done. */
  ghost function Carried(s: seq<Byte>, i: nat): seq<Byte>
    requires i <= |s|
  {
    s[..i] + Incremented(s[i..])
  }

  /** One turn of the loop: done if the byte did not become zero, and otherwise on to the next. */
  lemma CarriedStep(s: seq<Byte>, i: nat)
    requires i < |s|
    ensures var t := s[i := Bump(s[i])];
            Carried(s, i) == if Bump(s[i]) != 0 then t else Carried(t, i + 1)
  {
    var t := s[i := Bump(s[i])];
    assert s[i..][1..] == s[i + 1..] == t[i + 1..];
    assert t[..i + 1] == s[..i] + [Bump(s[i])];
    if s[i] == 255 {
      Assoc(s[..i], [0], Incremented(s[i + 1..]));
    } else {
      assert t == t[..i + 1] + t[i + 1..];
      Assoc(s[..i], [Bump(s[i])], s[i + 1..]);
    }
  }

  lemma CarriedEnds(s: seq<Byte>)
    ensures Carried(s, 0) == Incremented(s) && Carried(s, |s|) == s
  {
    assert s[..0] == [] && s[0..] == s && s[|s|..] == [] && s[..|s|] == s;
  }

  method Increment(b: array<Byte>)
    modifies b
    ensures b[..] == Incremented(old(b[..]))
  {
    ghost var target := Incremented(b[..]);
    var i := 0;
    CarriedEnds(b[..]);
    hide Carried, Incremented;
    while i < b.Length
      invariant i <= b.Length && Carried(b[..], i) == target
    {
      ghost var before := b[..];
      CarriedStep(before, i);
      b[i] := Bump(b[i]);
      assert b[..] == before[i := Bump(before[i])];
      if b[i] != 0 {
        return;
      }
      i := i + 1;
    }
    CarriedEnds(b[..]);
  }

  /** increment adds one modulo 256^n. */
  lemma {:induction false} IncrementedValue(s: seq<Byte>)
    ensures LEVal(Incremented(s)) == (LEVal(s) + 1) % Pow256(|s|)
  {
    if s != [] {
      LEValRoundTrip(s[1..]);
      var v, p := LEVal(s[1..]), Pow256(|s| - 1);
      var bumped := Incremented(s);
      if s[0] == 255 {
        IncrementedValue(s[1..]);
        assert bumped[1..] == Incremented(s[1..]);
        if v + 1 < p {
          DivUnique(v + 1, p, 0, v + 1);
          DivUnique(LEVal(s) + 1, 256 * p, 0, 256 * (v + 1));
        } else {
          DivUnique(v + 1, p, 1, 0);
          DivUnique(LEVal(s) + 1, 256 * p, 1, 0);
        }
      } else {
        assert bumped[1..] == s[1..];
        DivUnique(LEVal(s) + 1, 256 * p, 0, LEVal(s) + 1);
      }
    }
  }

  lemma ModPlusOne(k: nat, p: nat)
    requires p > 0
    ensures (k % p + 1) % p == (k + 1) % p
  {
    var q, r := k / p, k % p;
    if r + 1 < p {
      DivUnique(k + 1, p, q, r + 1);
      DivUnique(r + 1, p, 0, r + 1);
    } else {
      assert k + 1 == (q + 1) * p + 0;
      DivUnique(k + 1, p, q + 1, 0);
      DivUnique(r + 1, p, 1, 0);
    }
  }

  lemma {:induction false} ZeroValue(s: seq<Byte>)
    requires forall i :: 0 <= i < |s| ==> s[i] == 0
    ensures LEVal(s) == 0
  {
    if s != [] {
      ZeroValue(s[1..]);
    }
  }

  /** The nonce is the little-endian counter k modulo 256^size. */
  lemma {:induction false} NonceValue(size: nat, k: nat)
    ensures LEVal(Nonce(size, k)) == k % Pow256(size)
    ensures Nonce(size, k) == LE(size, k % Pow256(size))
    decreases k
  {
    if k == 0 {
      ZeroValue(Nonce(size, 0));
      DivUnique(0, Pow256(size), 0, 0);
    } else {
      NonceValue(size, k - 1);
      IncrementedValue(Nonce(size, k - 1));
      ModPlusOne(k - 1, Pow256(size));
    }
    LEValRoundTrip(Nonce(size, k));
  }

  /** Two seals under one key share a nonce exactly when they are a multiple of 256^size apart; so the first 256^size
      seals use distinct nonces, and the next one repeats the first. */
  lemma {:induction false} NoncesDistinct(size: nat, i: nat, j: nat)
    ensures Nonce(size, i) == Nonce(size, j) <==> i % Pow256(size) == j % Pow256(size)
    ensures i < j < Pow256(size) ==> Nonce(size, i) != Nonce(size, j)
    ensures Nonce(size, Pow256(size)) == Nonce(size, 0)
  {
    var p := Pow256(size);
    NonceValue(size, i);
    NonceValue(size, j);
    NonceValue(size, 0);
    NonceValue(size, p);
    DivUnique(0, p, 0, 0);
    DivUnique(p, p, 1, 0);
    if i < j < p {
      DivUnique(i, p, 0, i);
      DivUnique(j, p, 0, j);
    }
  }

  /** The big-endian payload size. */
  function SizeField(n: nat): seq<Byte>
    requires n <= PAYLOAD_SIZE_MASK
  {
    [n / 256, n % 256]
  }

  lemma SizeBack(n: nat)
    requires n <= PAYLOAD_SIZE_MASK
    ensures var f := SizeField(n); |f| == 2 && (f[0] * 256 + f[1]) % (PAYLOAD_SIZE_MASK + 1) == n
  {
  }

  predicate Fits(p: seq<Byte>) {
    1 <= |p| <= PAYLOAD_SIZE_MASK
  }

  /** A record sealed after k earlier seals. */
  function Record(a: Aead, k: nat, p: seq<Byte>): seq<Byte>
    requires |p| <= PAYLOAD_SIZE_MASK
  {
    a.seal(Nonce(a.nonceSize, k), SizeField(|p|)) + a.seal(Nonce(a.nonceSize, k + 1), p)
  }

  ghost predicate AllFit(recs: seq<seq<Byte>>) {
    forall i :: 0 <= i < |recs| ==> Fits(recs[i])
  }

  function Wire(a: Aead, k: nat, recs: seq<seq<Byte>>): seq<Byte>
    requires AllFit(recs)
    decreases |recs|
  {
    if recs == [] then [] else Record(a, k, recs[0]) + Wire(a, k + 2, recs[1..])
  }

  lemma {:induction false} WireAppend(a: Aead, k: nat, x: seq<seq<Byte>>, y: seq<seq<Byte>>)
    requires AllFit(x) && AllFit(y)
    ensures AllFit(x + y)
    ensures Wire(a, k, x + y) == Wire(a, k, x) + Wire(a, k + 2 * |x|, y)
    decreases |x|
  {
    if x == [] {
      assert x + y == y;
    } else {
      assert (x + y)[1..] == x[1..] + y;
      hide Record;
      WireAppend(a, k + 2, x[1..], y);
      Assoc(Record(a, k, x[0]), Wire(a, k + 2, x[1..]), Wire(a, k + 2 * |x|, y));
    }
  }

  /** The records writer.Write makes of a byte string. */
  function Chunks(p: seq<Byte>): (recs: seq<seq<Byte>>)
    ensures AllFit(recs) && Flatten(recs) == p
    ensures recs == [] <==> p == []
  {
    if p == [] then []
    else
      var k := Min(PAYLOAD_SIZE_MASK, |p|);
      SplitAt(p, k);
      [p[..k]] + Chunks(p[k..])
  }

  lemma {:induction false} ChunksAt(p: seq<Byte>, i: nat)
    requires i < |Chunks(p)|
    ensures 32767 * i < |p| && Chunks(p)[i] == p[32767 * i..Min(32767 * (i + 1), |p|)]
  {
    var k := Min(32767, |p|);
    if i > 0 {
      ChunksAt(p[k..], i - 1);
      assert k == 32767;
      SliceOfRest(p, k, 32767 * (i - 1), Min(32767 * i, |p| - k));
    }
  }

  lemma {:induction false} ChunksCount(p: seq<Byte>)
    ensures |Chunks(p)| == (|p| + 32766) / 32767
  {
    if p != [] {
      var k := Min(32767, |p|);
      ChunksCount(p[k..]);
    }
  }

  /** They are the consecutive pieces of 32767 bytes, the last one perhaps shorter. */
  lemma {:induction false} ChunksExact(p: seq<Byte>)
    ensures |Chunks(p)| == (|p| + 32766) / 32767
    ensures forall i :: 0 <= i < |Chunks(p)| ==>
              32767 * i < |p| && Chunks(p)[i] == p[32767 * i..Min(32767 * (i + 1), |p|)]
  {
    ChunksCount(p);
    hide Chunks;
    forall i | 0 <= i < |Chunks(p)|
      ensures 32767 * i < |p| && Chunks(p)[i] == p[32767 * i..Min(32767 * (i + 1), |p|)]
    {
      ChunksAt(p, i);
    }
  }

  /** What reader.read makes of the front of a stream: a payload and the bytes used. */
  function OpenRecord(a: Aead, k: nat, w: seq<Byte>): (r: Option<(seq<Byte>, nat)>)
    ensures r.Some? ==> 2 <= r.value.1 <= |w|
  {
    var h := 2 + a.overhead;
    if |w| < h then None
    else
      match a.open(Nonce(a.nonceSize, k), w[..h])
      case None => None
      case Some(size) =>
        if |size| != 2 then None
        else
          var end := h + (size[0] * 256 + size[1]) % (PAYLOAD_SIZE_MASK + 1) + a.overhead;
          if |w| < end then None
          else
            match a.open(Nonce(a.nonceSize, k + 1), w[h..end])
            case None => None
            case Some(p) => Some((p, end))
  }

  /** Everything a reader that has opened k texts can still recover from the bytes of a stream. */
  function Decode(a: Aead, k: nat, w: seq<Byte>): seq<Byte>
    decreases |w|
  {
    match OpenRecord(a, k, w)
    case None => []
    case Some((p, n)) => p + Decode(a, k + 2, w[n..])
  }

  lemma RecordLength(a: Aead, k: nat, p: seq<Byte>)
    requires a.Lawful() && |p| <= PAYLOAD_SIZE_MASK
    ensures |Record(a, k, p)| == 2 + a.overhead + |p| + a.overhead
    ensures Record(a, k, p)[..2 + a.overhead] == a.seal(Nonce(a.nonceSize, k), SizeField(|p|))
    ensures Record(a, k, p)[2 + a.overhead..] == a.seal(Nonce(a.nonceSize, k + 1), p)
  {
  }

  lemma OpenSealed(a: Aead, k: nat, p: seq<Byte>, rest: seq<Byte>)
    requires a.Lawful() && |p| <= PAYLOAD_SIZE_MASK
    ensures OpenRecord(a, k, Record(a, k, p) + rest) == Some((p, |Record(a, k, p)|))
  {
    RecordLength(a, k, p);
    SizeBack(|p|);
    hide Record, Nonce, SizeField;
    var w, h := Record(a, k, p) + rest, 2 + a.overhead;
    assert w[..h] == Record(a, k, p)[..h];
    assert w[h..|Record(a, k, p)|] == Record(a, k, p)[h..];
  }

  lemma OpenTorn(a: Aead, k: nat, p: seq<Byte>, n: nat)
    requires a.Lawful() && |p| <= PAYLOAD_SIZE_MASK
    requires n < |Record(a, k, p)|
    ensures OpenRecord(a, k, Record(a, k, p)[..n]) == None
  {
    RecordLength(a, k, p);
    SizeBack(|p|);
    hide Record, Nonce, SizeField;
    var h := 2 + a.overhead;
    if n >= h {
      assert Record(a, k, p)[..n][..h] == Record(a, k, p)[..h];
    }
  }

  lemma DecodeHead(a: Aead, k: nat, p: seq<Byte>, rest: seq<Byte>)
    requires a.Lawful() && |p| <= PAYLOAD_SIZE_MASK
    ensures Decode(a, k, Record(a, k, p) + rest) == p + Decode(a, k + 2, rest)
  {
    OpenSealed(a, k, p, rest);
    assert (Record(a, k, p) + rest)[|Record(a, k, p)|..] == rest;
  }

  lemma DecodeCutCons(a: Aead, k: nat, p: seq<Byte>, rest: seq<Byte>, n: nat)
    requires a.Lawful() && |p| <= PAYLOAD_SIZE_MASK
    requires |Record(a, k, p)| <= n <= |Record(a, k, p) + rest|
    ensures Decode(a, k, (Record(a, k, p) + rest)[..n]) == p + Decode(a, k + 2, rest[..n - |Record(a, k, p)|])
  {
    CutAfter(Record(a, k, p), rest, n);
    DecodeHead(a, k, p, rest[..n - |Record(a, k, p)|]);
  }

  /** A record that opens opens again when more follows. */
  lemma OpenMore(a: Aead, k: nat, x: seq<Byte>, y: seq<Byte>)
    requires x <= y && OpenRecord(a, k, x).Some?
    ensures OpenRecord(a, k, y) == OpenRecord(a, k, x)
  {
    var h := 2 + a.overhead;
    assert y[..h] == x[..h];
    var end := OpenRecord(a, k, x).value.1;
    assert y[h..end] == x[h..end];
  }

  /** Waiting for more bytes never changes what has been decoded, whatever the bytes are. */
  lemma {:induction false} DecodeMore(a: Aead, k: nat, x: seq<Byte>, y: seq<Byte>)
    requires x <= y
    ensures Decode(a, k, x) <= Decode(a, k, y)
    decreases |x|
  {
    if OpenRecord(a, k, x).Some? {
      OpenMore(a, k, x, y);
      var n := OpenRecord(a, k, x).value.1;
      assert x[n..] <= y[n..];
      DecodeMore(a, k + 2, x[n..], y[n..]);
    }
  }

  /** A stream of records cut anywhere decodes to a prefix of the plaintext, and to all of it when it is whole. */
  lemma {:induction false} DecodeCut(a: Aead, k: nat, recs: seq<seq<Byte>>, n: nat)
    requires a.Lawful() && AllFit(recs)
    requires n <= |Wire(a, k, recs)|
    ensures Decode(a, k, Wire(a, k, recs)[..n]) <= Flatten(recs)
    ensures n == |Wire(a, k, recs)| <==> Decode(a, k, Wire(a, k, recs)[..n]) == Flatten(recs)
    decreases |recs|
  {
    if recs == [] {
      DecodeNothing(a, k);
    } else {
      var p, rest := recs[0], Wire(a, k + 2, recs[1..]);
      assert Fits(p);
      assert Wire(a, k, recs) == Record(a, k, p) + rest && Flatten(recs) == p + Flatten(recs[1..]);
      hide Decode, Record, Wire, Flatten, Aead.Lawful;
      if n >= |Record(a, k, p)| {
        DecodeCut(a, k + 2, recs[1..], n - |Record(a, k, p)|);
      }
      DecodeCutStep(a, k, p, rest, n, Flatten(recs[1..]));
    }
  }

  /** From the rest of a stream to the whole of it. */
  lemma DecodeCutStep(a: Aead, k: nat, p: seq<Byte>, rest: seq<Byte>, n: nat, plain: seq<Byte>)
    requires a.Lawful() && Fits(p) && n <= |Record(a, k, p) + rest|
    requires n >= |Record(a, k, p)| ==>
               && Decode(a, k + 2, rest[..n - |Record(a, k, p)|]) <= plain
               && (n == |Record(a, k, p) + rest| <==> Decode(a, k + 2, rest[..n - |Record(a, k, p)|]) == plain)
    ensures Decode(a, k, (Record(a, k, p) + rest)[..n]) <= p + plain
    ensures n == |Record(a, k, p) + rest| <==> Decode(a, k, (Record(a, k, p) + rest)[..n]) == p + plain
  {
    hide Decode, Record, Aead.Lawful;
    var head := Record(a, k, p);
    if n < |head| {
      assert (head + rest)[..n] == head[..n];
      DecodeTorn(a, k, p, n);
    } else {
      DecodeCutCons(a, k, p, rest, n);
      SameRest(p, Decode(a, k + 2, rest[..n - |head|]), plain);
    }
  }

  lemma DecodeNothing(a: Aead, k: nat)
    ensures Decode(a, k, []) == []
  {
  }

  lemma DecodeTorn(a: Aead, k: nat, p: seq<Byte>, n: nat)
    requires a.Lawful() && |p| <= PAYLOAD_SIZE_MASK && n < |Record(a, k, p)|
    ensures Decode(a, k, Record(a, k, p)[..n]) == []
  {
    OpenTorn(a, k, p, n);
  }

  lemma SameRest(p: seq<Byte>, x: seq<Byte>, y: seq<Byte>)
    ensures p + x == p + y <==> x == y
    ensures x <= y ==> p + x <= p + y
  {
    if p + x == p + y {
      assert x == (p + x)[|p|..] == (p + y)[|p|..] == y;
    }
  }

  /** The bytes of a connection: the salt, then the records under the key derived from it. */
  function Stream(c: Cipher, salt: seq<Byte>, recs: seq<seq<Byte>>): seq<Byte>
    requires AllFit(recs)
  {
    salt + Wire(c.derive(salt), 0, recs)
  }

  function DecodeStream(c: Cipher, w: seq<Byte>): seq<Byte> {
    if |w| < c.saltSize then [] else Decode(c.derive(w[..c.saltSize]), 0, w[c.saltSize..])
  }

  lemma StreamCut(c: Cipher, salt: seq<Byte>, recs: seq<seq<Byte>>, n: nat)
    requires c.Lawful() && |salt| == c.saltSize && AllFit(recs)
    requires n <= |Stream(c, salt, recs)|
    ensures DecodeStream(c, Stream(c, salt, recs)[..n]) <= Flatten(recs)
    ensures n == |Stream(c, salt, recs)| ==> DecodeStream(c, Stream(c, salt, recs)[..n]) == Flatten(recs)
    ensures recs != [] && n < |Stream(c, salt, recs)| ==> DecodeStream(c, Stream(c, salt, recs)[..n]) < Flatten(recs)
  {
    assert recs != [] ==> Flatten(recs) != [] by {
      if recs != [] {
        assert Fits(recs[0]);
      }
    }
    hide Decode, Wire, Flatten;
    if n >= |salt| {
      var wire := Wire(c.derive(salt), 0, recs);
      CutAfter(salt, wire, n);
      var w := salt + wire[..n - |salt|];
      assert w[..|salt|] == salt && w[|salt|..] == wire[..n - |salt|];
      assert c.derive(salt).Lawful();
      DecodeCut(c.derive(salt), 0, recs, n - |salt|);
    }
  }

  lemma DecodeStreamMore(c: Cipher, x: seq<Byte>, y: seq<Byte>)
    requires x <= y
    ensures DecodeStream(c, x) <= DecodeStream(c, y)
  {
    if |x| >= c.saltSize {
      assert x[..c.saltSize] == y[..c.saltSize] && x[c.saltSize..] <= y[c.saltSize..];
      DecodeMore(c.derive(x[..c.saltSize]), 0, x[c.saltSize..], y[c.saltSize..]);
    }
  }
}
