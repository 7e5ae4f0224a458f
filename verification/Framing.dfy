/** block/block.go and tunnel_pool/tunnel.go on top of the record layer: blocks through one tunnel. */
module Framing {
  import opened Bytes
  import opened Blocks
  import opened Records
  import opened Streams
  import opened StreamReading
  import Scheduler

  lemma ParseShort(header: seq<Byte>, rest: seq<Byte>)
    requires |header| == HEADER_SIZE && |rest| < Field32(header[17..21])
    ensures Parse(header + rest) == Short
  {
    assert (header + rest)[17..21] == header[17..21];
  }

  lemma ParseParts(header: seq<Byte>, data: seq<Byte>, rest: seq<Byte>)
    requires |header| == HEADER_SIZE && |data| == Field32(header[17..21])
    ensures var p := Parse(header + (data + rest));
            && p.Parsed? && p.used == HEADER_SIZE + |data|
            && p.block == Assemble(header, data)
            && (header + (data + rest))[p.used..] == rest
  {
    var s := header + (data + rest);
    assert s[17..21] == header[17..21] && s[1..5] == header[1..5] && s[5..13] == header[5..13]
           && s[13..17] == header[13..17];
    assert s[HEADER_SIZE..HEADER_SIZE + |data|] == data;
  }

  /** The fields NewBlockFromReader fills in. */
  function Assemble(header: seq<Byte>, data: seq<Byte>): Block
    requires |header| == HEADER_SIZE
  {
    Pow256Facts(); LEValRoundTrip(header[5..13]);
    Block(header[0], Field32(header[1..5]), Signed(LEVal(header[5..13])), Field32(header[13..17]),
          Field32(header[17..21]), data)
  }

  /** Reads a header, then as many bytes as it announces. */
  method NewBlockFromReader(r: StreamReader) returns (b: Option<Block>)
    requires r.Valid()
    modifies r, r.conn, r.nonce, r.buf
    ensures r.Valid()
    ensures r.nonce == old(r.nonce) || fresh(r.nonce)
    ensures r.buf == old(r.buf) || fresh(r.buf)
    ensures match Parse(old(r.available))
            case Short => b == None
            case Parsed(blk, n) => b == Some(blk) && r.available == old(r.available)[n..]
  {
    hide StreamReader.Valid, Parse;
    var headerBuf := new Byte[HEADER_SIZE];
    var ok := r.ReadFull(headerBuf);
    if !ok {
      ParseNoHeader(old(r.available));
      return None;
    }
    ghost var rest := r.available;
    var header := headerBuf[..];
    var length := Field32(header[17..21]);
    var data := new Byte[length];
    if length > 0 {
      ok := r.ReadFull(data);
      if !ok {
        ParseShort(header, rest);
        return None;
      }
    }
    assert rest == data[..] + r.available;
    ParseParts(header, data[..], r.available);
    b := Some(Assemble(header, data[..]));
  }

  lemma ParseNoHeader(s: seq<Byte>)
    requires |s| < HEADER_SIZE
    ensures Parse(s) == Short
  {
  }

  /** Ping and Pong blocks stop at the tunnel. */
  function Forward(bs: seq<Block>): seq<Block> {
    if bs == [] then [] else (if bs[0].KeepAlive() then [] else [bs[0]]) + Forward(bs[1..])
  }

  lemma {:induction false} ForwardAppend(a: seq<Block>, b: seq<Block>)
    ensures Forward(a + b) == Forward(a) + Forward(b)
  {
    if a == [] {
      assert a + b == b;
    } else {
      assert (a + b)[1..] == a[1..] + b;
      ForwardAppend(a[1..], b);
    }
  }

  lemma ForwardPrefix(a: seq<Block>, b: seq<Block>)
    requires a <= b
    ensures Forward(a) <= Forward(b)
  {
    assert b == a + b[|a|..];
    ForwardAppend(a, b[|a|..]);
  }

  /** The normal branch of InboundRelay: parses blocks until the tunnel fails. */
  method InboundRelay(r: StreamReader) returns (output: seq<Block>)
    requires r.Valid()
    modifies r, r.conn, r.nonce, r.buf
    ensures output == Forward(ParseAll(old(r.available)))
  {
    hide StreamReader.Valid, Parse;
    output := [];
    ghost var all := Forward(ParseAll(r.available));
    while true
      invariant r.Valid()
      invariant r.nonce == old(r.nonce) || fresh(r.nonce)
      invariant r.buf == old(r.buf) || fresh(r.buf)
      invariant output + Forward(ParseAll(r.available)) == all
      decreases |r.available|
    {
      ghost var before := r.available;
      var b := NewBlockFromReader(r);
      if b == None {
        break;
      }
      ForwardStep(before, r.available, b.value, output);
      if !b.value.KeepAlive() {
        output := output + [b.value];
      }
    }
  }

  lemma ForwardStep(before: seq<Byte>, after: seq<Byte>, b: Block, output: seq<Block>)
    requires Parse(before).Parsed? && Parse(before).block == b && after == before[Parse(before).used..]
    ensures output + Forward(ParseAll(before)) ==
            (if b.KeepAlive() then output else output + [b]) + Forward(ParseAll(after))
  {
    hide Parse;
    assert ParseAll(before) == [b] + ParseAll(after);
    assert ([b] + ParseAll(after))[1..] == ParseAll(after);
    if !b.KeepAlive() {
      Assoc(output, [b], Forward(ParseAll(after)));
    }
  }

  function Packs(bs: seq<Block>): seq<seq<Byte>> {
    if bs == [] then [] else [Pack(bs[0])] + Packs(bs[1..])
  }

  lemma {:induction false} PacksFlatten(bs: seq<Block>)
    ensures Flatten(Packs(bs)) == PackAll(bs)
  {
    if bs != [] {
      PacksFlatten(bs[1..]);
      assert Packs(bs)[1..] == Packs(bs[1..]);
    }
  }

  /** What can be decoded from any prefix of a tunnel's stream is a prefix of the blocks put into it. */
  lemma FramingStack(c: Cipher, salt: seq<Byte>, recs: seq<seq<Byte>>, bs: seq<Block>, seen: seq<Byte>)
    requires c.Lawful() && |salt| == c.saltSize && AllFit(recs) && AllWellFormed(bs)
    requires Flatten(recs) <= PackAll(bs)
    requires seen <= Stream(c, salt, recs)
    ensures Forward(ParseAll(DecodeStream(c, seen))) <= Forward(bs)
    ensures Flatten(recs) == PackAll(bs) && seen == Stream(c, salt, recs) ==>
              Forward(ParseAll(DecodeStream(c, seen))) == Forward(bs)
  {
    hide Stream, DecodeStream, ParseAll, PackAll;
    var whole := Stream(c, salt, recs);
    assert seen == whole[..|seen|];
    StreamCut(c, salt, recs, |seen|);
    var plain := DecodeStream(c, seen);
    assert plain == PackAll(bs)[..|plain|];
    ParseAllCut(bs, |plain|);
    ForwardPrefix(ParseAll(plain), bs);
  }

  /** A whole tunnel, over a connection that takes up to limit bytes and of which arrives bytes get through: blocks are
      packed, sealed, sent as messages that may be cut anywhere, read back, opened and parsed. What comes out is a
      prefix of what went in, and all of it if limit and arrives leave room for it. */
  method Tunnel(cipher: Cipher, bs: seq<Block>, limit: nat, arrives: nat)
      returns (output: seq<Block>, ghost salt: seq<Byte>)
    requires cipher.Lawful() && AllWellFormed(bs)
    ensures output <= Forward(bs)
    ensures |Stream(cipher, salt, AllChunks(Packs(bs)))| <= Min(limit, arrives) ==> output == Forward(bs)
  {
    hide StreamReader.Valid, Forward, ParseAll, DecodeStream, AllChunks;
    var sender := new WebsocketWriter(limit);
    var writer := new StreamWriter(sender, cipher);
    var sentAll := writer.WriteMany(Packs(bs));
    PacksFlatten(bs);
    salt := writer.salt;
    ghost var recs := writer.recs;
    assert sender.sent <= Stream(cipher, salt, recs);
    var receiver := Cut(sender.sent, Min(arrives, |sender.sent|));
    var reader := new StreamReader(receiver, cipher);
    output := InboundRelay(reader);
    FramingStack(cipher, salt, recs, bs, sender.sent[..Min(arrives, |sender.sent|)]);
    if bs == [] {
      ForwardNothing();
    } else if |Stream(cipher, salt, AllChunks(Packs(bs)))| <= Min(limit, arrives) {
      assert sender.sent[..Min(arrives, |sender.sent|)] == sender.sent;
    }
  }

  lemma ForwardNothing()
    ensures Forward([]) == []
  {
  }

  /** The first n bytes, as messages of whatever sizes. */
  method Cut(sent: seq<Byte>, n: nat) returns (receiver: WebsocketConnAdapter)
    requires n <= |sent|
    ensures fresh(receiver) && receiver.Unread() == sent[..n]
  {
    assert Flatten([sent[..n]]) == sent[..n] + Flatten([]) == sent[..n];
    var messages: seq<seq<Byte>> :| Flatten(messages) == sent[..n];
    receiver := new WebsocketConnAdapter(messages);
  }

  /** A whole encrypted connection: any writes, messages cut anywhere and lost from any point on, any reads. The bytes
      read are a prefix of the bytes written; all of them, if limit and arrives leave room for them and the reads go on
      to the end. */
  method Connection(cipher: Cipher, writes: seq<seq<Byte>>, limit: nat, arrives: nat, sizes: seq<nat>)
      returns (results: seq<seq<Byte>>, ended: bool, ghost salt: seq<Byte>)
    requires cipher.Lawful()
    ensures Flatten(results) <= Flatten(writes)
    ensures |Stream(cipher, salt, AllChunks(writes))| <= Min(limit, arrives) && ended ==>
              Flatten(results) == Flatten(writes)
    ensures !ended ==> |results| == |sizes|
  {
    hide StreamReader.Valid, DecodeStream, Stream, AllChunks;
    var sender := new WebsocketWriter(limit);
    var writer := new StreamWriter(sender, cipher);
    var sentAll := writer.WriteMany(writes);
    salt := writer.salt;
    ghost var recs := writer.recs;
    ghost var stream := Stream(cipher, salt, recs);
    assert sender.sent <= stream;
    var n := Min(arrives, |sender.sent|);
    assert sender.sent[..n] == stream[..n];
    StreamCut(cipher, salt, recs, n);
    var receiver := Cut(sender.sent, n);
    var reader := new StreamReader(receiver, cipher);
    results, ended := reader.ReadMany(sizes);
    if writes == [] {
      assert Flatten([]) == [];
    }
  }

  // ---------------------------------------------------------------- the writer and the step system

  /** A writer on which only blocks were written. */
  ghost predicate OnlyBlocks(w: StreamWriter)
    reads w, w.conn
  {
    w.recs == [] ==> w.aead.None? || w.conn.broken
  }

  /** The tunnel of the step system that such a writer is. */
  ghost function AsTunnel(w: StreamWriter): Scheduler.Tunnel
    reads w, w.conn
  {
    Scheduler.Tunnel(!w.conn.broken, true, None, w.salt, |w.recs|, w.conn.sent, 0, [], 0)
  }

  /** Writing a packed block is the step Put: the connection gets the block's sealed records, after the salt if they are
      the first, all of them on success and the first n bytes otherwise. */
  method SendBlock(w: StreamWriter, b: Block) returns (ok: bool, ghost n: nat)
    requires w.Valid() && OnlyBlocks(w)
    modifies w, w.conn, w.nonce, w.buf
    ensures w.Valid() && OnlyBlocks(w)
    ensures old(w.aead.Some?) ==> w.salt == old(w.salt)
    ensures var t := Scheduler.Put(w.cipher, old(AsTunnel(w)).(salt := w.salt), b, n, ok);
            t.wire == w.conn.sent && t.writable == !w.conn.broken
    ensures var t := old(AsTunnel(w)).(salt := w.salt);
            ok <==> !old(w.conn.broken) && |old(w.conn.sent)| + |Scheduler.Sealed(w.cipher, t, b)| <= w.conn.limit
  {
    hide Pack, Chunks, Wire, Stream, Nonce, Scheduler.Sealed;
    ghost var recs, sent, broken := w.recs, w.conn.sent, w.conn.broken;
    ghost var t := AsTunnel(w);
    var written, k;
    written, ok, k := w.Write(Pack(b));
    PackSome(b);
    t := t.(salt := w.salt);
    n := |w.conn.sent| - |sent|;
    if !broken {
      SealedStream(w.cipher, t, b, recs, sent);
      SomeRecords(w.cipher, w.salt, recs, Chunks(Pack(b)), k);
      Between(sent, w.conn.sent, Scheduler.Sealed(w.cipher, t, b));
    }
  }

  lemma PackSome(b: Block)
    ensures Pack(b) != [] && Chunks(Pack(b)) != []
  {
  }

  lemma Between(x: seq<Byte>, y: seq<Byte>, more: seq<Byte>)
    requires x <= y <= x + more
    ensures y == x + more[..|y| - |x|]
  {
  }

  /** Part of the records reach no further than all of them. */
  lemma SomeRecords(c: Cipher, salt: seq<Byte>, recs: seq<seq<Byte>>, more: seq<seq<Byte>>, k: nat)
    requires AllFit(recs) && AllFit(more) && k <= |more|
    ensures AllFit(recs + more[..k]) && AllFit(recs + more)
    ensures Stream(c, salt, recs + more[..k]) <= Stream(c, salt, recs + more)
    ensures k == |more| ==> recs + more[..k] == recs + more
  {
    var x, y := recs + more[..k], more[k..];
    assert x + y == recs + more;
    assert AllFit(x) && AllFit(y);
    WireAppend(c.derive(salt), 0, x, y);
  }

  /** What was sent, followed by the sealed block, is the stream of the records before and those of the block. */
  lemma SealedStream(c: Cipher, t: Scheduler.Tunnel, b: Block, recs: seq<seq<Byte>>, sent: seq<Byte>)
    requires AllFit(recs) && t.records == |recs|
    requires sent == if recs == [] then [] else Stream(c, t.salt, recs)
    ensures AllFit(recs + Chunks(Pack(b)))
    ensures sent + Scheduler.Sealed(c, t, b) == Stream(c, t.salt, recs + Chunks(Pack(b)))
  {
    var a, more := c.derive(t.salt), Chunks(Pack(b));
    hide Chunks, Pack, Wire;
    WireAppend(a, 0, recs, more);
    Assoc(t.salt, Wire(a, 0, recs), Wire(a, 2 * |recs|, more));
    if recs == [] {
      assert recs + more == more;
      assert [] + (t.salt + Wire(a, 0, more)) == t.salt + Wire(a, 0, more);
    } else {
      assert [] + Wire(a, 2 * |recs|, more) == Wire(a, 2 * |recs|, more);
    }
  }
}
