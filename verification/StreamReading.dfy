/** tunnel/tunnel.go, the receiving side: the websocket message adapter and the decrypting reader. */
module StreamReading {
  import opened Bytes
  import opened Records

  /** WebsocketConnAdapter.Read: turns the messages that will ever arrive into a byte stream. */
  class WebsocketConnAdapter {
    var messages: seq<seq<Byte>>
    var reader: Option<seq<Byte>>

    /** The bytes not handed out yet. */
    ghost function Unread(): seq<Byte>
      reads this
    {
      (if reader.Some? then reader.value else []) + Flatten(messages)
    }

    ghost function Pending(): nat
      reads this
    {
      |Unread()| + |messages| + (if reader.Some? then 1 else 0)
    }

    constructor (messages: seq<seq<Byte>>)
      ensures Unread() == Flatten(messages)
    {
      this.messages, reader := messages, None;
    }

    /** Reads into dst[lo..hi]. A message may be handed out in pieces, and its end is an empty read. */
    method Read(dst: array<Byte>, lo: nat, hi: nat) returns (n: nat, ok: bool)
      requires lo <= hi <= dst.Length
      modifies this, dst
      ensures lo + n <= hi
      ensures dst[lo..lo + n] + Unread() == old(Unread())
      ensures forall i :: 0 <= i < dst.Length && !(lo <= i < lo + n) ==> dst[i] == old(dst[i])
      ensures !ok ==> n == 0 && Unread() == []
      ensures Pending() <= old(Pending())
      ensures ok && lo < hi ==> Pending() < old(Pending())
    {
      if reader.None? {
        if messages == [] {
          return 0, false;
        }
        reader, messages := Some(messages[0]), messages[1..];
      }
      ok := true;
      var m := reader.value;
      if m == [] {
        n, reader := 0, None;
        return;
      }
      var room := Min(hi - lo, |m|);
      n :| 0 <= n <= room && (n == 0 ==> room == 0);
      forall i | 0 <= i < n {
        dst[lo + i] := m[i];
      }
      assert dst[lo..lo + n] == m[..n];
      SplitAt(m, n);
      Assoc(m[..n], m[n..], Flatten(messages));
      var atEnd: bool := *;
      reader := if n == |m| && atEnd then None else Some(m[n..]);
    }

    /** io.ReadFull into dst[..k]. */
    method ReadFull(dst: array<Byte>, k: nat) returns (ok: bool)
      requires k <= dst.Length
      modifies this, dst
      ensures ok <==> k <= |old(Unread())|
      ensures ok ==> old(Unread()) == dst[..k] + Unread()
      ensures !ok ==> Unread() == []
      ensures Pending() <= old(Pending())
      ensures ok && k > 0 ==> Pending() < old(Pending())
    {
      var got: nat := 0;
      ok := true;
      while got < k
        invariant got <= k
        invariant dst[..got] + Unread() == old(Unread())
        invariant Pending() <= old(Pending()) && (got > 0 ==> Pending() < old(Pending()))
        decreases Pending()
      {
        ghost var before := dst[..got];
        var n;
        n, ok := Read(dst, got, k);
        assert dst[..got + n] == before + dst[got..got + n];
        Assoc(before, dst[got..got + n], Unread());
        got := got + n;
        if !ok {
          return;
        }
      }
    }
  }

  /** The stream is too short for the text expected next, or the text does not open. */
  ghost predicate CannotOpen(a: Aead, k: nat, size: nat, w: seq<Byte>) {
    |w| < size + a.overhead || a.open(Nonce(a.nonceSize, k), w[..size + a.overhead]).None?
  }

  lemma CannotOpenHead(a: Aead, k: nat, w: seq<Byte>)
    requires CannotOpen(a, k, 2, w)
    ensures Decode(a, k, w) == []
  {
  }

  lemma OpenParts(a: Aead, k: nat, head: seq<Byte>, field: seq<Byte>, rest: seq<Byte>)
    requires a.Lawful() && |field| == 2
    requires a.open(Nonce(a.nonceSize, k), head) == Some(field)
    ensures var length := (field[0] as int * 256 + field[1]) % (PAYLOAD_SIZE_MASK + 1);
            var c := length + a.overhead;
            OpenRecord(a, k, head + rest) ==
              if |rest| < c then None
              else match a.open(Nonce(a.nonceSize, k + 1), rest[..c])
                   case None => None
                   case Some(p) => Some((p, |head| + c))
  {
    var w := head + rest;
    assert |head| == 2 + a.overhead && w[..|head|] == head;
    var c := (field[0] as int * 256 + field[1]) % (PAYLOAD_SIZE_MASK + 1) + a.overhead;
    if c <= |rest| {
      assert w[|head|..|head| + c] == rest[..c];
    }
  }

  lemma CannotOpenBody(a: Aead, k: nat, head: seq<Byte>, field: seq<Byte>, rest: seq<Byte>)
    requires a.Lawful() && |field| == 2
    requires a.open(Nonce(a.nonceSize, k), head) == Some(field)
    requires CannotOpen(a, k + 1, (field[0] as int * 256 + field[1]) % (PAYLOAD_SIZE_MASK + 1), rest)
    ensures Decode(a, k, head + rest) == []
  {
    OpenParts(a, k, head, field, rest);
  }

  lemma DecodeParts(a: Aead, k: nat, head: seq<Byte>, field: seq<Byte>, body: seq<Byte>, p: seq<Byte>, rest: seq<Byte>)
    requires a.Lawful() && |field| == 2
    requires a.open(Nonce(a.nonceSize, k), head) == Some(field)
    requires a.open(Nonce(a.nonceSize, k + 1), body) == Some(p)
    requires |p| == (field[0] as int * 256 + field[1]) % (PAYLOAD_SIZE_MASK + 1)
    ensures Decode(a, k, head + (body + rest)) == p + Decode(a, k + 2, rest)
  {
    OpenParts(a, k, head, field, body + rest);
    assert (body + rest)[..|body|] == body;
    assert (head + (body + rest))[|head| + |body|..] == rest;
  }

  lemma DecodeSalted(c: Cipher, salt: seq<Byte>, rest: seq<Byte>)
    requires |salt| == c.saltSize
    ensures DecodeStream(c, salt + rest) == Decode(c.derive(salt), 0, rest)
  {
    assert (salt + rest)[..|salt|] == salt && (salt + rest)[|salt|..] == rest;
  }

  lemma DecodeShort(c: Cipher, w: seq<Byte>)
    requires |w| < c.saltSize
    ensures DecodeStream(c, w) == []
  {
  }

  lemma ZeroNonce(s: seq<Byte>)
    requires forall i :: 0 <= i < |s| ==> s[i] == 0
    ensures s == Nonce(|s|, 0)
  {
  }

  /** streamConn for reading, with its lazily made reader. leftover is the slice buf[lo..hi]. */
  class StreamReader {
    const conn: WebsocketConnAdapter
    const cipher: Cipher
    var aead: Option<Aead>
    var nonce: array<Byte>
    var buf: array<Byte>
    var lo: nat
    var hi: nat

    /** What can still be read, given all the messages that will arrive: the leftover, then the rest. */
    ghost var available: seq<Byte>
    ghost var left: seq<Byte>
    ghost var opens: nat

    ghost predicate Valid()
      reads this, conn, nonce, buf
    {
      Leftover() && Keyed() && available == left + Rest()
    }

    ghost predicate Leftover()
      reads this, buf
    {
      && lo <= hi <= buf.Length
      && |left| == hi - lo
      && (forall i :: 0 <= i < |left| ==> buf[lo + i] == left[i])
    }

    ghost predicate Keyed()
      reads this, nonce
    {
      && cipher.Lawful()
      && nonce != buf
      && (aead.None? ==> left == [])
      && (aead.Some? ==>
            && aead.value.Lawful()
            && buf.Length == PAYLOAD_SIZE_MASK + aead.value.overhead
            && nonce[..] == Nonce(aead.value.nonceSize, opens))
    }

    /** What the connection still holds. */
    ghost function Rest(): seq<Byte>
      reads this`aead, this`opens, conn
    {
      if aead.None? then DecodeStream(cipher, conn.Unread()) else Decode(aead.value, opens, conn.Unread())
    }

    constructor (conn: WebsocketConnAdapter, cipher: Cipher)
      requires cipher.Lawful()
      ensures Valid() && this.conn == conn && this.cipher == cipher
      ensures available == DecodeStream(cipher, conn.Unread())
      ensures fresh(nonce) && fresh(buf)
    {
      this.conn, this.cipher, aead := conn, cipher, None;
      nonce, buf := new Byte[0], new Byte[0];
      lo, hi, opens := 0, 0, 0;
      available, left := DecodeStream(cipher, conn.Unread()), [];
    }

    /** Reads size bytes and their tag into buf and opens them in place. */
    method OpenNext(a: Aead, size: nat) returns (ok: bool, ghost sealed: seq<Byte>)
      requires Keyed() && aead == Some(a)
      requires size <= PAYLOAD_SIZE_MASK
      modifies conn, nonce, buf, this`opens
      ensures Keyed()
      ensures conn.Pending() <= old(conn.Pending())
      ensures ok && size > 0 ==> conn.Pending() < old(conn.Pending())
      ensures ok ==> opens == old(opens) + 1 && old(conn.Unread()) == sealed + conn.Unread()
      ensures ok ==> a.open(Nonce(a.nonceSize, old(opens)), sealed) == Some(buf[..size])
      ensures !ok ==> CannotOpen(a, old(opens), size, old(conn.Unread()))
    {
      var c := size + a.overhead;
      ghost var w := conn.Unread();
      sealed := [];
      ok := conn.ReadFull(buf, c);
      if !ok {
        return;
      }
      sealed := buf[..c];
      assert w[..c] == sealed;
      var plain := a.open(nonce[..], buf[..c]);
      Increment(nonce);
      opens := opens + 1;
      ok := plain.Some?;
      if ok {
        forall i | 0 <= i < size {
          buf[i] := plain.value[i];
        }
        assert buf[..size] == plain.value;
      }
    }

    /** reader.read: one record into buf[..size]. */
    method ReadRecord(a: Aead) returns (size: nat, ok: bool)
      requires Keyed() && aead == Some(a)
      modifies conn, nonce, buf, this`opens
      ensures Keyed()
      ensures conn.Pending() <= old(conn.Pending())
      ensures ok ==> conn.Pending() < old(conn.Pending())
      ensures ok ==> opens == old(opens) + 2
      ensures ok ==> size <= buf.Length && buf[..size] + Rest() == old(Rest())
      ensures !ok ==> old(Rest()) == []
    {
      hide Keyed, Decode, OpenRecord, Nonce, CannotOpen;
      ghost var w, k, head, body := conn.Unread(), opens, [], [];
      size := 0;
      ok, head := OpenNext(a, 2);
      if !ok {
        CannotOpenHead(a, k, w);
        return;
      }
      ghost var field, w1 := buf[..2], conn.Unread();
      var length: nat := (buf[0] as int * 256 + buf[1]) % (PAYLOAD_SIZE_MASK + 1);
      ok, body := OpenNext(a, length);
      if ok {
        size := length;
        DecodeParts(a, k, head, field, body, buf[..size], conn.Unread());
      } else {
        CannotOpenBody(a, k, head, field, w1);
      }
    }

    method NewReader(a: Aead)
      requires cipher.Lawful() && a.Lawful() && left == []
      modifies this`aead, this`nonce, this`buf, this`lo, this`hi, this`opens
      ensures Keyed() && Leftover() && aead == Some(a) && opens == 0
      ensures fresh(nonce) && fresh(buf)
    {
      hide Nonce;
      aead := Some(a);
      nonce := new Byte[a.nonceSize](i => 0);
      buf := new Byte[PAYLOAD_SIZE_MASK + a.overhead];
      lo, hi, opens := 0, 0, 0;
      ZeroNonce(nonce[..]);
    }

    /** initReader: the salt comes first. */
    method InitReader() returns (ok: bool)
      requires Valid() && aead.None?
      modifies this, conn
      ensures Valid()
      ensures ok <==> aead.Some?
      ensures ok ==> available == old(available) && left == []
      ensures !ok ==> old(available) == []
      ensures conn.Pending() <= old(conn.Pending())
      ensures nonce == old(nonce) || fresh(nonce)
      ensures buf == old(buf) || fresh(buf)
    {
      hide Decode, DecodeStream, Nonce, Flatten, WebsocketConnAdapter.Unread, WebsocketConnAdapter.Pending;
      var salt := new Byte[cipher.saltSize];
      ok := conn.ReadFull(salt, cipher.saltSize);
      if ok {
        assert salt[..] == salt[..cipher.saltSize];
        DecodeSalted(cipher, salt[..], conn.Unread());
        assert cipher.derive(salt[..]).Lawful();
        NewReader(cipher.derive(salt[..]));
      } else {
        DecodeShort(cipher, old(conn.Unread()));
        available := left + Rest();
      }
    }

    /** Makes the whole next record the leftover. */
    method NextRecord() returns (ok: bool)
      requires Valid() && aead.Some? && left == []
      modifies this`lo, this`hi, this`opens, this`available, this`left, conn, nonce, buf
      ensures Valid()
      ensures ok ==> available == old(available) && conn.Pending() < old(conn.Pending())
      ensures !ok ==> old(available) == []
    {
      hide Rest;
      var size;
      size, ok := ReadRecord(aead.value);
      if ok {
        lo, hi, left := 0, size, buf[..size];
      } else {
        lo, hi, left, available := 0, 0, [], [] + Rest();
      }
    }

    /** copy(b, r.leftover), or the copy from a new record that leaves a leftover. */
    method TakeLeftover(dst: array<Byte>, from: nat, to: nat) returns (n: nat)
      requires Leftover() && from <= to <= dst.Length
      requires dst != buf
      modifies this`lo, this`left, dst
      ensures Leftover()
      ensures from + n <= to && n <= |old(left)| && lo == old(lo) + n && left == old(left)[n..]
      ensures from < to && old(left) != [] ==> n > 0
      ensures forall i :: 0 <= i < n ==> dst[from + i] == old(left)[i]
      ensures forall i :: 0 <= i < dst.Length && !(from <= i < from + n) ==> dst[i] == old(dst[i])
    {
      n := Min(to - from, hi - lo);
      forall i | 0 <= i < n {
        dst[from + i] := buf[lo + i];
      }
      lo := lo + n;
      left := left[n..];
    }

    ghost predicate Shrinks(pending: nat, leftBefore: nat)
      reads this, conn
    {
      conn.Pending() < pending || (conn.Pending() == pending && |left| < leftBefore)
    }

    /** reader.Read into dst[from..to]. */
    method ReadReady(dst: array<Byte>, from: nat, to: nat) returns (n: nat, ok: bool, ghost got: seq<Byte>)
      requires Valid() && aead.Some? && from <= to <= dst.Length
      requires dst != buf && dst != nonce
      modifies this`lo, this`hi, this`opens, this`available, this`left, conn, nonce, buf, dst
      ensures Valid()
      ensures from + n <= to && |got| == n
      ensures forall i :: 0 <= i < n ==> dst[from + i] == got[i]
      ensures forall i :: 0 <= i < dst.Length && !(from <= i < from + n) ==> dst[i] == old(dst[i])
      ensures ok ==> old(available) == got + available
      ensures !ok ==> n == 0 && old(available) == []
      ensures ok && from < to ==> Shrinks(old(conn.Pending()), old(|left|))
    {
      hide Rest;
      got := [];
      if lo == hi {
        ok := NextRecord();
        if !ok {
          return 0, false, [];
        }
      }
      ok := true;
      ghost var was := left;
      n := TakeLeftover(dst, from, to);
      got := was[..n];
      SplitAt(was, n);
      Assoc(got, left, Rest());
      available := left + Rest();
    }

    /** Read into dst[from..to]: bytes come out in order and none is skipped; it fails only when nothing is left. */
    method Read(dst: array<Byte>, from: nat, to: nat) returns (n: nat, ok: bool, ghost got: seq<Byte>)
      requires Valid() && from <= to <= dst.Length
      requires dst != buf && dst != nonce
      modifies this, conn, nonce, buf, dst
      ensures Valid()
      ensures nonce == old(nonce) || fresh(nonce)
      ensures buf == old(buf) || fresh(buf)
      ensures from + n <= to && |got| == n
      ensures forall i :: 0 <= i < n ==> dst[from + i] == got[i]
      ensures forall i :: 0 <= i < dst.Length && !(from <= i < from + n) ==> dst[i] == old(dst[i])
      ensures ok ==> old(available) == got + available
      ensures !ok ==> n == 0 && old(available) == []
      ensures ok && from < to ==> Shrinks(old(conn.Pending()), old(|left|))
    {
      hide Rest;
      if aead.None? {
        ok := InitReader();
        if !ok {
          return 0, false, [];
        }
      }
      n, ok, got := ReadReady(dst, from, to);
    }

    /** io.ReadFull into all of dst: succeeds exactly when enough bytes will arrive. */
    method ReadFull(dst: array<Byte>) returns (ok: bool)
      requires Valid()
      requires dst != buf && dst != nonce
      modifies this, conn, nonce, buf, dst
      ensures Valid()
      ensures nonce == old(nonce) || fresh(nonce)
      ensures buf == old(buf) || fresh(buf)
      ensures ok <==> dst.Length <= |old(available)|
      ensures ok ==> old(available) == dst[..] + available
    {
      hide Rest, Keyed, Leftover;
      var done: nat := 0;
      ok := true;
      ghost var got: seq<Byte> := [];
      while done < dst.Length
        invariant Valid() && done <= dst.Length
        invariant nonce == old(nonce) || fresh(nonce)
        invariant buf == old(buf) || fresh(buf)
        invariant dst != buf && dst != nonce
        invariant |got| == done && old(available) == got + available
        invariant forall i :: 0 <= i < done ==> dst[i] == got[i]
        decreases conn.Pending(), |left|
      {
        ghost var more;
        var n;
        n, ok, more := Read(dst, done, dst.Length);
        if !ok {
          return;
        }
        Assoc(got, more, available);
        forall i | done <= i < done + n ensures dst[i] == (got + more)[i] {
          assert dst[done + (i - done)] == more[i - done];
        }
        got := got + more;
        done := done + n;
      }
      assert dst[..] == got;
    }

    /** Any sequence of reads, of any sizes, up to the first that fails: together they return a prefix of what will ever
        be available, and all of it if one failed. */
    method ReadMany(sizes: seq<nat>) returns (results: seq<seq<Byte>>, ended: bool)
      requires Valid()
      modifies this, conn, nonce, buf
      ensures Valid() && |results| <= |sizes|
      ensures Flatten(results) <= old(available)
      ensures ended ==> Flatten(results) == old(available)
      ensures !ended ==> |results| == |sizes| && old(available) == Flatten(results) + available
    {
      hide Rest, Keyed, Leftover;
      results, ended := [], false;
      assert Flatten([]) == [];
      hide Flatten;
      while |results| < |sizes|
        invariant Valid() && |results| <= |sizes|
        invariant nonce == old(nonce) || fresh(nonce)
        invariant buf == old(buf) || fresh(buf)
        invariant old(available) == Flatten(results) + available
      {
        var b := new Byte[sizes[|results|]];
        var n, ok;
        ghost var got;
        n, ok, got := Read(b, 0, b.Length);
        if !ok {
          ended := true;
          return;
        }
        assert b[..n] == got;
        FlattenSnoc(results, got);
        Assoc(Flatten(results), got, available);
        results := results + [b[..n]];
      }
    }
  }
}
