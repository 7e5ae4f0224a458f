/** tunnel/tunnel.go, as it runs: streamConn with its writer and reader, over websocket messages. */
module Streams {
  import opened Bytes
  import opened Records

  /** The sending side of a websocket. It takes messages up to limit bytes in all; the first that does not fit fails and
      may leave any part of itself behind, and nothing can be written after it. */
  class WebsocketWriter {
    const limit: nat
    var sent: seq<Byte>
    var broken: bool

    constructor (limit: nat)
      ensures sent == [] && !broken && this.limit == limit
    {
      this.limit, sent, broken := limit, [], false;
    }

    method Write(message: seq<Byte>) returns (ok: bool)
      modifies this
      ensures ok <==> !broken
      ensures ok <==> !old(broken) && |old(sent)| + |message| <= limit
      ensures old(broken) ==> sent == old(sent)
      ensures ok ==> sent == old(sent) + message
      ensures old(sent) <= sent <= old(sent) + message
    {
      if !broken {
        broken := |sent| + |message| > limit;
        var n :| 0 <= n <= |message|;
        sent := sent + if broken then message[..n] else message;
      }
      ok := !broken;
    }
  }

  method StoreAt(dst: array<Byte>, at: nat, bytes: seq<Byte>)
    requires at + |bytes| <= dst.Length
    modifies dst
    ensures dst[at..at + |bytes|] == bytes
    ensures forall i :: 0 <= i < dst.Length && !(at <= i < at + |bytes|) ==> dst[i] == old(dst[i])
  {
    forall i | 0 <= i < |bytes| {
      dst[at + i] := bytes[i];
    }
  }

  /** streamConn for writing, with its lazily made writer: the salt goes out before the first record. */
  class StreamWriter {
    const conn: WebsocketWriter
    const cipher: Cipher
    var aead: Option<Aead>
    var nonce: array<Byte>
    var buf: array<Byte>

    ghost var salt: seq<Byte>
    ghost var recs: seq<seq<Byte>>

    /** The far end can see at most the stream of the records sealed so far, and all of it while no write failed. */
    ghost predicate Valid()
      reads this, conn, nonce, buf
    {
      && cipher.Lawful() && AllFit(recs) && |salt| == cipher.saltSize
      && (aead.None? ==> recs == [] && (conn.broken || conn.sent == []))
      && (aead.Some? ==> aead.value == cipher.derive(salt) && Ready())
      && (conn.sent <= Stream(cipher, salt, recs))
      && (aead.Some? && !conn.broken ==> conn.sent == Stream(cipher, salt, recs))
    }

    ghost predicate Ready()
      requires aead.Some?
      reads this, nonce, buf
    {
      && nonce != buf
      && buf.Length == 2 + aead.value.overhead + PAYLOAD_SIZE_MASK + aead.value.overhead
      && nonce[..] == Nonce(aead.value.nonceSize, 2 * |recs|)
    }

    constructor (conn: WebsocketWriter, cipher: Cipher)
      requires cipher.Lawful() && conn.sent == [] && !conn.broken
      ensures Valid() && this.conn == conn && this.cipher == cipher
      ensures recs == [] && aead.None?
      ensures fresh(nonce) && fresh(buf)
    {
      this.conn, this.cipher, aead := conn, cipher, None;
      nonce, buf := new Byte[0], new Byte[0];
      salt, recs := seq(cipher.saltSize, i => 0), [];
    }

    /** Seals buf[at..at + len] in place and steps the nonce. */
    method SealAt(a: Aead, at: nat, len: nat, ghost k: nat)
      requires a.Lawful() && nonce != buf && nonce[..] == Nonce(a.nonceSize, k)
      requires at + len + a.overhead <= buf.Length
      modifies buf, nonce
      ensures nonce[..] == Nonce(a.nonceSize, k + 1)
      ensures buf[at..at + len + a.overhead] == a.seal(Nonce(a.nonceSize, k), old(buf[at..at + len]))
      ensures forall i :: 0 <= i < buf.Length && !(at <= i < at + len + a.overhead) ==> buf[i] == old(buf[i])
    {
      var sealed := a.seal(nonce[..], buf[at..at + len]);
      StoreAt(buf, at, sealed);
      Increment(nonce);
    }

    /** Turns the nr payload bytes waiting at their place in buf into a record, without moving them. */
    method SealRecord(a: Aead, nr: nat, ghost k: nat)
      requires a.Lawful() && nonce != buf && nonce[..] == Nonce(a.nonceSize, k)
      requires nr <= PAYLOAD_SIZE_MASK && 2 + a.overhead + nr + a.overhead <= buf.Length
      modifies buf, nonce
      ensures nonce[..] == Nonce(a.nonceSize, k + 2)
      ensures buf[..2 + a.overhead + nr + a.overhead] == Record(a, k, old(buf[2 + a.overhead..2 + a.overhead + nr]))
    {
      hide Nonce;
      var h := 2 + a.overhead;
      ghost var payload := buf[h..h + nr];
      buf[0], buf[1] := nr / 256, nr % 256;
      assert buf[0..2] == SizeField(nr);
      SealAt(a, 0, 2, k);
      assert buf[h..h + nr] == payload;
      ghost var head := buf[..h];
      SealAt(a, h, nr, k + 1);
      assert buf[..h] == head;
      assert buf[..h + nr + a.overhead] == buf[..h] + buf[h..h + nr + a.overhead];
    }

    /** One turn of the loop in writer.ReadFrom for a payload of nr bytes. */
    method WriteRecord(payload: seq<Byte>) returns (ok: bool)
      requires Valid() && aead.Some? && Fits(payload)
      modifies conn, nonce, buf, this`recs
      ensures Valid() && recs == old(recs) + [payload]
      ensures ok <==> !conn.broken
      ensures ok <==> !old(conn.broken) && |Stream(cipher, salt, recs)| <= conn.limit
      ensures old(conn.sent) <= conn.sent && (old(conn.broken) ==> conn.broken && conn.sent == old(conn.sent))
    {
      hide Stream, Record, Nonce;
      var a := aead.value;
      var h, nr := 2 + a.overhead, |payload|;
      StoreAt(buf, h, payload);
      SealRecord(a, nr, 2 * |recs|);
      ok := conn.Write(buf[..h + nr + a.overhead]);
      StreamSnoc(cipher, salt, recs, payload);
      recs := recs + [payload];
    }

    /** initWriter: sends a random salt and derives the key from it. */
    method InitWriter() returns (ok: bool)
      requires Valid() && aead.None?
      modifies this, conn
      ensures Valid() && recs == []
      ensures ok <==> aead.Some?
      ensures ok <==> !conn.broken
      ensures ok <==> !old(conn.broken) && cipher.saltSize <= conn.limit
      ensures old(conn.sent) <= conn.sent && (old(conn.broken) ==> conn.broken && conn.sent == old(conn.sent))
      ensures nonce == old(nonce) || fresh(nonce)
      ensures buf == old(buf) || fresh(buf)
    {
      var zeros: seq<Byte> := seq(cipher.saltSize, i => 0);
      assert |zeros| == cipher.saltSize;
      var random: seq<Byte> :| |random| == cipher.saltSize;
      if !conn.broken {
        salt := random;
      }
      ok := conn.Write(random);
      assert Stream(cipher, salt, []) == salt;
      if ok {
        var a := cipher.derive(random);
        assert a.Lawful();
        aead := Some(a);
        nonce := new Byte[a.nonceSize](i => 0);
        buf := new Byte[2 + a.overhead + PAYLOAD_SIZE_MASK + a.overhead];
        assert nonce[..] == Nonce(a.nonceSize, 0);
      }
    }

    /** writer.ReadFrom, with what the reads of its source return: a record for each that is not empty, until one
        fails. */
    method ReadFrom(supplied: seq<seq<Byte>>) returns (n: nat, ok: bool, k: nat)
      requires Valid() && aead.Some?
      requires forall i :: 0 <= i < |supplied| ==> |supplied[i]| <= PAYLOAD_SIZE_MASK
      modifies conn, nonce, buf, this`recs
      ensures Valid() && old(conn.sent) <= conn.sent
      ensures old(conn.broken) ==> conn.broken && conn.sent == old(conn.sent)
      ensures k <= |supplied| && n == |Flatten(supplied[..k])| && recs == old(recs) + Filled(supplied[..k])
      ensures ok ==> k == |supplied|
      ensures ok <==> Filled(supplied) == [] || (!old(conn.broken) && Reach(old(recs) + Filled(supplied)) <= conn.limit)
      ensures Filled(supplied) != [] ==> (ok <==> !conn.broken)
      ensures Filled(supplied) == [] ==> conn.broken == old(conn.broken)
    {
      hide Stream, Nonce, Filled, Flatten;
      n, ok, k := 0, true, 0;
      FilledNothing();
      assert supplied[..0] == [] && recs + [] == recs;
      while k < |supplied|
        invariant k <= |supplied| && ok && Valid() && old(conn.sent) <= conn.sent
        invariant old(conn.broken) ==> conn.broken && conn.sent == old(conn.sent)
        invariant n == |Flatten(supplied[..k])| && recs == old(recs) + Filled(supplied[..k])
        invariant Filled(supplied[..k]) == [] ==> conn.broken == old(conn.broken)
        invariant Filled(supplied[..k]) != [] ==> !old(conn.broken) && !conn.broken && Reach(recs) <= conn.limit
      {
        ghost var done := recs;
        FilledSnoc(supplied, k);
        FilledRest(supplied, k + 1);
        Assoc(old(recs), Filled(supplied[..k]), if supplied[k] == [] then [] else [supplied[k]]);
        n := n + |supplied[k]|;
        if supplied[k] != [] {
          ok := WriteRecord(supplied[k]);
        } else {
          assert recs + [] == recs;
        }
        k := k + 1;
        if !ok {
          ReachMore(old(recs), Filled(supplied[..k]), Filled(supplied));
          return;
        }
      }
      assert supplied[..k] == supplied;
    }

    /** How far on the connection a list of records ends. */
    ghost function Reach(recs: seq<seq<Byte>>): nat
      reads this`salt
    {
      if AllFit(recs) then |Stream(cipher, salt, recs)| else 0
    }

    lemma ReachMore(x: seq<seq<Byte>>, y: seq<seq<Byte>>, z: seq<seq<Byte>>)
      requires y <= z && AllFit(x) && AllFit(z)
      ensures Reach(x + y) <= Reach(x + z) && AllFit(x + y) && AllFit(x + z)
    {
      assert z == y + z[|y|..];
      Assoc(x, y, z[|y|..]);
      assert AllFit(x + y) && AllFit(z[|y|..]) && x + y + z[|y|..] == x + z;
      WireAppend(cipher.derive(salt), 0, x + y, z[|y|..]);
    }

    /** streamConn.Write: seals b in full records. It succeeds exactly if they all fit on the connection, after the salt
        if nothing has been written before. */
    method Write(b: seq<Byte>) returns (n: nat, ok: bool, k: nat)
      requires Valid()
      modifies this, conn, nonce, buf
      ensures Valid() && old(conn.sent) <= conn.sent
      ensures old(conn.broken) ==> conn.broken && conn.sent == old(conn.sent)
      ensures k <= |Chunks(b)| && recs == old(recs) + Chunks(b)[..k]
      ensures n <= |b| && Flatten(recs) == old(Flatten(recs)) + b[..n]
      ensures ok ==> k == |Chunks(b)| && n == |b| && aead.Some?
      ensures old(aead.Some?) ==> aead == old(aead) && salt == old(salt)
      ensures ok <==> (b == [] && old(aead.Some?)) ||
                      (!old(conn.broken) && Reach(old(recs) + Chunks(b)) <= conn.limit)
      ensures b != [] || old(aead.None?) ==> (ok <==> !conn.broken)
      ensures b == [] && old(aead.Some?) ==> conn.broken == old(conn.broken)
      ensures nonce == old(nonce) || fresh(nonce)
      ensures buf == old(buf) || fresh(buf)
    {
      hide Stream, Nonce, Flatten, Chunks, Filled;
      k := 0;
      assert b[..0] == [] && Flatten(recs) + [] == Flatten(recs);
      assert Chunks(b)[..0] == [] && recs + [] == recs;
      if aead.None? {
        ok := InitWriter();
        if !ok {
          ReachSalt(recs, Chunks(b));
          return 0, false, 0;
        }
      }
      ghost var before := recs;
      ReachSalt(recs, Chunks(b));
      FilledFull(Chunks(b));
      n, ok, k := ReadFrom(Chunks(b));
      ChunksPart(b, k);
      FlattenAppend(before, Chunks(b)[..k]);
    }

    /** The salt always comes first. */
    lemma ReachSalt(x: seq<seq<Byte>>, y: seq<seq<Byte>>)
      requires AllFit(x) && AllFit(y) && |salt| == cipher.saltSize
      ensures cipher.saltSize <= Reach(x + y)
      ensures Reach([]) == cipher.saltSize
    {
      assert AllFit(x + y);
    }

    /** Any sequence of writes: what the far end can see is a stream whose plaintext is a prefix of what was written,
        and the stream of all of it if every write succeeded, as they do if they fit on the connection. */
    method WriteMany(writes: seq<seq<Byte>>) returns (allOk: bool)
      requires Valid() && recs == [] && aead.None? && !conn.broken
      modifies this, conn, nonce, buf
      ensures Valid()
      ensures Flatten(recs) <= Flatten(writes)
      ensures allOk ==> recs == AllChunks(writes) && Flatten(recs) == Flatten(writes)
      ensures allOk && writes != [] ==> conn.sent == Stream(cipher, salt, recs)
      ensures allOk <==> writes == [] || Reach(AllChunks(writes)) <= conn.limit
    {
      hide Stream, Nonce, Flatten, Chunks, AllChunks;
      allOk := true;
      var i := 0;
      AllChunksNothing();
      assert writes[..0] == [];
      while i < |writes|
        invariant i <= |writes| && allOk
        invariant Valid() && !conn.broken && (i > 0 ==> aead.Some?) && (i == 0 ==> aead.None?)
        invariant nonce == old(nonce) || fresh(nonce)
        invariant buf == old(buf) || fresh(buf)
        invariant recs == AllChunks(writes[..i]) && Flatten(recs) == Flatten(writes[..i])
        invariant i > 0 ==> Reach(recs) <= conn.limit
      {
        var n;
        var k;
        AllChunksSnoc(writes, i);
        ChunksOfNothing();
        ghost var done := recs;
        n, allOk, k := Write(writes[i]);
        FlattenTake(writes, i, n);
        assert allOk ==> Chunks(writes[i])[..k] == Chunks(writes[i]);
        assert done + [] == done;
        AllChunksRest(writes, i + 1);
        if !allOk {
          assert AllChunks(writes[..i + 1]) <= AllChunks(writes);
          ReachMore([], AllChunks(writes[..i + 1]), AllChunks(writes));
          assert [] + AllChunks(writes[..i + 1]) == AllChunks(writes[..i + 1]);
          assert [] + AllChunks(writes) == AllChunks(writes);
          return;
        }
        i := i + 1;
      }
      assert writes[..i] == writes;
      if writes != [] {
        Fitted();
      }
    }

    /** While nothing failed, what was sent is within the limit. */
    lemma Fitted()
      requires Valid() && !conn.broken && aead.Some?
      ensures conn.sent == Stream(cipher, salt, recs)
    {
    }
  }

  /** The reads that returned something. */
  function Filled(supplied: seq<seq<Byte>>): seq<seq<Byte>> {
    if supplied == [] then []
    else Filled(supplied[..|supplied| - 1]) + if supplied[|supplied| - 1] == [] then [] else [supplied[|supplied| - 1]]
  }

  lemma FilledNothing()
    ensures Filled([]) == [] && Flatten([]) == []
  {
  }

  lemma FilledSnoc(supplied: seq<seq<Byte>>, k: nat)
    requires k < |supplied|
    ensures Filled(supplied[..k + 1]) == Filled(supplied[..k]) + if supplied[k] == [] then [] else [supplied[k]]
    ensures Flatten(supplied[..k + 1]) == Flatten(supplied[..k]) + supplied[k]
  {
    assert supplied[..k + 1][..k] == supplied[..k] && supplied[..k + 1] == supplied[..k] + [supplied[k]];
    FlattenSnoc(supplied[..k], supplied[k]);
  }

  lemma {:induction false} FilledRest(supplied: seq<seq<Byte>>, k: nat)
    requires k <= |supplied|
    requires forall i :: 0 <= i < |supplied| ==> |supplied[i]| <= PAYLOAD_SIZE_MASK
    ensures Filled(supplied[..k]) <= Filled(supplied) && AllFit(Filled(supplied)) && AllFit(Filled(supplied[..k]))
  {
    var m := |supplied| - 1;
    if m >= 0 {
      if k <= m {
        assert supplied[..m][..k] == supplied[..k];
        FilledRest(supplied[..m], k);
      } else {
        assert supplied[..k] == supplied;
        FilledRest(supplied[..m], m);
      }
    }
  }

  lemma {:induction false} FilledFull(recs: seq<seq<Byte>>)
    requires AllFit(recs)
    ensures Filled(recs) == recs
    ensures forall k :: 0 <= k <= |recs| ==> Filled(recs[..k]) == recs[..k]
  {
    forall k | 0 <= k <= |recs| ensures Filled(recs[..k]) == recs[..k] {
      FilledSame(recs[..k]);
    }
    assert recs[..|recs|] == recs;
  }

  lemma {:induction false} FilledSame(recs: seq<seq<Byte>>)
    requires AllFit(recs)
    ensures Filled(recs) == recs
  {
    if recs != [] {
      var m := |recs| - 1;
      assert Fits(recs[m]);
      FilledSame(recs[..m]);
      assert recs == recs[..m] + [recs[m]];
    }
  }

  /** The first k records of a byte string hold its first bytes. */
  lemma ChunksPart(b: seq<Byte>, k: nat)
    requires k <= |Chunks(b)|
    ensures var n := |Flatten(Chunks(b)[..k])|;
            n <= |b| && Flatten(Chunks(b)[..k]) == b[..n] && (k == |Chunks(b)| ==> n == |b|)
  {
    hide Chunks;
    var x, y := Chunks(b)[..k], Chunks(b)[k..];
    assert x + y == Chunks(b);
    FlattenAppend(x, y);
    if k == |Chunks(b)| {
      assert x == Chunks(b);
    }
  }

  /** The records of some writes, one after the other. */
  function AllChunks(writes: seq<seq<Byte>>): (recs: seq<seq<Byte>>)
    ensures AllFit(recs)
  {
    if writes == [] then [] else AllChunks(writes[..|writes| - 1]) + Chunks(writes[|writes| - 1])
  }

  lemma ChunksOfNothing()
    ensures Chunks([]) == []
  {
  }

  lemma AllChunksNothing()
    ensures AllChunks([]) == [] && Flatten([]) == []
  {
  }

  lemma AllChunksSnoc(writes: seq<seq<Byte>>, i: nat)
    requires i < |writes|
    ensures AllChunks(writes[..i + 1]) == AllChunks(writes[..i]) + Chunks(writes[i])
  {
    assert writes[..i + 1][..i] == writes[..i];
  }

  lemma {:induction false} AllChunksRest(writes: seq<seq<Byte>>, i: nat)
    requires i <= |writes|
    ensures AllChunks(writes[..i]) <= AllChunks(writes)
  {
    if i < |writes| {
      var m := |writes| - 1;
      assert writes[..m][..i] == writes[..i];
      AllChunksRest(writes[..m], i);
    } else {
      assert writes[..i] == writes;
    }
  }

  lemma FlattenTake(parts: seq<seq<Byte>>, i: nat, n: nat)
    requires i < |parts| && n <= |parts[i]|
    ensures Flatten(parts[..i]) + parts[i][..n] <= Flatten(parts)
    ensures n == |parts[i]| ==> Flatten(parts[..i]) + parts[i][..n] == Flatten(parts[..i + 1])
  {
    FlattenSnoc(parts[..i], parts[i]);
    assert parts[..i + 1] == parts[..i] + [parts[i]];
    FlattenAppend(parts[..i + 1], parts[i + 1..]);
    assert parts == parts[..i + 1] + parts[i + 1..];
  }

  lemma StreamSnoc(c: Cipher, salt: seq<Byte>, recs: seq<seq<Byte>>, p: seq<Byte>)
    requires AllFit(recs) && Fits(p)
    ensures AllFit(recs + [p])
    ensures Stream(c, salt, recs + [p]) == Stream(c, salt, recs) + Record(c.derive(salt), 2 * |recs|, p)
  {
    var a := c.derive(salt);
    WireAppend(a, 0, recs, [p]);
    assert Wire(a, 2 * |recs|, [p]) == Record(a, 2 * |recs|, p) + Wire(a, 2 * |recs| + 2, []);
    Assoc(salt, Wire(a, 0, recs), Record(a, 2 * |recs|, p));
  }
}
