/** tunnel_pool/tunnel.go and the relay of connection_pool/pool.go as a step system: any number of encrypted tunnels
    take blocks from shared queues, fail, retry, and deliver to the far end. Each write on a tunnel is one step. */
module Scheduler {
  import opened Bytes
  import opened Blocks
  import opened Records

  /** One tunnel. records counts the records sealed; wire is the ciphertext the connection has taken, and read the far
      end's position in the plaintext it decodes, as long as it keeps the tunnel open. sent and taken are history: the
      blocks completely on the wire, and how many of them the far end has parsed. */
  datatype Tunnel = Tunnel(
    writable: bool,
    open: bool,
    hand: Option<Block>,
    salt: seq<Byte>,
    records: nat,
    wire: seq<Byte>,
    read: nat,
    sent: seq<Block>,
    taken: nat)

  function Fresh(salt: seq<Byte>): Tunnel {
    Tunnel(true, true, None, salt, 0, [], 0, [], 0)
  }

  datatype Net = Net(
    submitted: seq<Block>,
    poolQueue: seq<Block>,
    sendQueue: seq<Block>,
    retryQueue: seq<Block>,
    tunnels: seq<Tunnel>,
    retrying: seq<Block>,
    written: seq<Block>,
    discarded: seq<Block>,
    delivered: seq<Block>)

  const EMPTY := Net([], [], [], [], [], [], [], [], [])

  datatype Action =
    | Submit(b: Block)
    | Relay
    | Open(salt: seq<Byte>)
    | TakeRetry(t: nat)
    | TakeNormal(t: nat)
    | SendOk(t: nat)
    | SendFail(t: nat, n: nat)
    | Requeue(i: nat)
    | Discard(i: nat)
    | KeepAlive(t: nat, b: Block, n: nat, ok: bool)
    | Arrive(t: nat, n: nat)
    | Hangup(t: nat)

  /** The ciphertext of a block: its records, after the salt if the tunnel has written nothing yet. */
  function Sealed(c: Cipher, t: Tunnel, b: Block): seq<Byte> {
    (if t.records == 0 then t.salt else []) + Wire(c.derive(t.salt), 2 * t.records, Chunks(Pack(b)))
  }

  /** packThenSend on the connection. A failed write leaves the first n bytes and breaks the connection for good;
      a broken connection takes nothing. */
  function Put(c: Cipher, t: Tunnel, b: Block, n: nat, ok: bool): Tunnel {
    if !t.writable then t
    else
      var w := Sealed(c, t, b);
      var k := if ok then |w| else Min(n, |w|);
      t.(wire := t.wire + w[..k],
         records := t.records + |Chunks(Pack(b))|,
         sent := if k == |w| then t.sent + [b] else t.sent,
         writable := ok)
  }

  function Take(s: Net, t: nat, b: Block): Net
    requires t < |s.tunnels|
  {
    s.(tunnels := s.tunnels[t := s.tunnels[t].(hand := Some(b))])
  }

  function Without(q: seq<Block>, i: nat): seq<Block>
    requires i < |q|
  {
    q[..i] + q[i + 1..]
  }

  /** What the far end finds next in the first n bytes of a tunnel: it decrypts them and parses on from its position. */
  function Next(c: Cipher, t: Tunnel, n: nat): Parsed {
    var plain := DecodeStream(c, t.wire[..Min(n, |t.wire|)]);
    if t.read > |plain| then Short else Parse(plain[t.read..])
  }

  /** A step; an action that is not possible changes nothing. */
  function Apply(c: Cipher, s: Net, a: Action): Net {
    match a
    case Submit(b) =>
      // a connection puts a block on the pool's queue
      if b.WellFormed() && !b.KeepAlive() then
        s.(submitted := s.submitted + [b], poolQueue := s.poolQueue + [b])
      else s
    case Relay =>
      // sendRelay moves it to the tunnel pool
      if s.poolQueue != [] then
        s.(poolQueue := s.poolQueue[1..], sendQueue := s.sendQueue + [s.poolQueue[0]])
      else s
    case Open(salt) =>
      if |salt| == c.saltSize then s.(tunnels := s.tunnels + [Fresh(salt)]) else s
    case TakeRetry(t) =>
      if t < |s.tunnels| && s.tunnels[t].hand.None? && s.retryQueue != [] then
        Take(s, t, s.retryQueue[0]).(retryQueue := s.retryQueue[1..])
      else s
    case TakeNormal(t) =>
      // a select may still choose a queue when the tunnel's context is done
      if t < |s.tunnels| && s.tunnels[t].hand.None? && s.sendQueue != [] then
        Take(s, t, s.sendQueue[0]).(sendQueue := s.sendQueue[1..])
      else s
    case SendOk(t) =>
      if t < |s.tunnels| && s.tunnels[t].hand.Some? && s.tunnels[t].writable then
        var b := s.tunnels[t].hand.value;
        s.(tunnels := s.tunnels[t := Put(c, s.tunnels[t], b, 0, true).(hand := None)], written := s.written + [b])
      else s
    case SendFail(t, n) =>
      if t < |s.tunnels| && s.tunnels[t].hand.Some? then
        var b := s.tunnels[t].hand.value;
        s.(tunnels := s.tunnels[t := Put(c, s.tunnels[t], b, n, false).(hand := None)], retrying := s.retrying + [b])
      else s
    case Requeue(i) =>
      // the send arm of some retry goroutine
      if i < |s.retrying| then
        s.(retrying := Without(s.retrying, i), retryQueue := s.retryQueue + [s.retrying[i]])
      else s
    case Discard(i) =>
      // the Done arm of some retry goroutine
      if i < |s.retrying| then
        s.(retrying := Without(s.retrying, i), discarded := s.discarded + [s.retrying[i]])
      else s
    case KeepAlive(t, b, n, ok) =>
      // a ping or pong, which is never retried and does not close the tunnel
      if t < |s.tunnels| && b.WellFormed() && b.KeepAlive() then
        s.(tunnels := s.tunnels[t := Put(c, s.tunnels[t], b, n, ok)])
      else s
    case Arrive(t, n) =>
      // InboundRelay at the far end, which has received n bytes of the tunnel, decodes and parses the next block
      if t < |s.tunnels| && s.tunnels[t].open then
        match Next(c, s.tunnels[t], n)
        case Short => s
        case Parsed(b, used) =>
          s.(tunnels := s.tunnels[t := Taken(s.tunnels[t], used)],
             delivered := s.delivered + if b.KeepAlive() then [] else [b])
      else s
    case Hangup(t) =>
      // the far end cancels the tunnel, or the connection breaks: what it has not read yet is lost
      if t < |s.tunnels| then s.(tunnels := s.tunnels[t := s.tunnels[t].(open := false)]) else s
  }

  function Taken(t: Tunnel, used: nat): Tunnel {
    t.(read := t.read + used, taken := t.taken + 1)
  }

  function Run(c: Cipher, actions: seq<Action>): Net {
    if actions == [] then EMPTY
    else Apply(c, Run(c, actions[..|actions| - 1]), actions[|actions| - 1])
  }

  // ---------------------------------------------------------------- one tunnel

  /** The records of some blocks, written one after the other. */
  function AllRecords(bs: seq<Block>): (recs: seq<seq<Byte>>)
    ensures AllFit(recs)
  {
    if bs == [] then [] else AllRecords(bs[..|bs| - 1]) + Chunks(Pack(bs[|bs| - 1]))
  }

  lemma AllRecordsSnoc(bs: seq<Block>, b: Block)
    ensures AllRecords(bs + [b]) == AllRecords(bs) + Chunks(Pack(b))
  {
    assert (bs + [b])[..|bs|] == bs;
  }

  lemma {:induction false} AllRecordsPlain(bs: seq<Block>)
    ensures Flatten(AllRecords(bs)) == PackAll(bs)
    ensures AllRecords(bs) == [] <==> bs == []
  {
    if bs != [] {
      var init, b := bs[..|bs| - 1], bs[|bs| - 1];
      assert bs == init + [b];
      AllRecordsPlain(init);
      FlattenAppend(AllRecords(init), Chunks(Pack(b)));
      PackAllSnoc(init, b);
    }
  }

  lemma PackAllSnoc(bs: seq<Block>, b: Block)
    ensures PackAll(bs + [b]) == PackAll(bs) + Pack(b)
  {
    PackAllAppend(bs, [b]);
    assert PackAll([b]) == Pack(b) + PackAll([]);
  }

  /** The ciphertext of a tunnel on which exactly these blocks were written. */
  function Whole(c: Cipher, salt: seq<Byte>, bs: seq<Block>): seq<Byte> {
    if bs == [] then [] else Stream(c, salt, AllRecords(bs))
  }

  /** Writing one more block extends it by the block's ciphertext. */
  lemma {:induction false} SealedExtends(c: Cipher, t: Tunnel, b: Block)
    requires t.wire == Whole(c, t.salt, t.sent) && t.records == |AllRecords(t.sent)|
    ensures t.wire + Sealed(c, t, b) == Whole(c, t.salt, t.sent + [b])
    ensures t.records + |Chunks(Pack(b))| == |AllRecords(t.sent + [b])|
  {
    var a := c.derive(t.salt);
    var first, second := AllRecords(t.sent), Chunks(Pack(b));
    AllRecordsSnoc(t.sent, b);
    AllRecordsPlain(t.sent);
    hide AllRecords, Chunks, Pack, Wire, PackAll;
    WireAppend(a, 0, first, second);
    Assoc(t.salt, Wire(a, 0, first), Wire(a, 2 * |first|, second));
    if t.sent == [] {
      assert [] + (t.salt + Wire(a, 0, second)) == t.salt + Wire(a, 0, second);
      assert first + second == second;
    } else {
      assert [] + Wire(a, 2 * t.records, second) == Wire(a, 2 * t.records, second);
    }
  }

  /** A tunnel's ciphertext, cut anywhere, decodes to a proper prefix of its plaintext; uncut, to all of it. */
  lemma {:induction false} WholeDecodes(c: Cipher, salt: seq<Byte>, bs: seq<Block>, seen: seq<Byte>)
    requires c.Lawful() && |salt| == c.saltSize && seen <= Whole(c, salt, bs)
    ensures if seen == Whole(c, salt, bs) then DecodeStream(c, seen) == PackAll(bs)
            else DecodeStream(c, seen) < PackAll(bs)
  {
    if bs == [] {
      NothingDecodes(c);
    } else {
      AllRecordsPlain(bs);
      hide Stream, DecodeStream, AllRecords, PackAll, Cipher.Lawful;
      var whole := Stream(c, salt, AllRecords(bs));
      assert seen == whole[..|seen|];
      StreamCut(c, salt, AllRecords(bs), |seen|);
    }
  }

  lemma NothingDecodes(c: Cipher)
    ensures DecodeStream(c, []) == []
  {
  }

  /** The ciphertext decodes to the packed blocks sent, possibly followed by a part of a torn one after which nothing is
      written; the far end stands at a block boundary. */
  ghost predicate Aligned(c: Cipher, t: Tunnel) {
    && |t.salt| == c.saltSize
    && AllWellFormed(t.sent)
    && (t.writable ==> Intact(c, t))
    && Ends(DecodeStream(c, t.wire), t.sent)
    && t.taken <= |t.sent|
    && t.read == |PackAll(t.sent[..t.taken])|
  }

  /** The plaintext is these blocks and then nothing that parses. */
  ghost predicate Ends(plain: seq<Byte>, bs: seq<Block>) {
    PackAll(bs) <= plain && Parse(plain[|PackAll(bs)|..]) == Short
  }

  lemma EndsWhole(bs: seq<Block>)
    ensures Ends(PackAll(bs), bs)
  {
    assert PackAll(bs)[|PackAll(bs)|..] == [];
    ParseNothing();
  }

  lemma EndsTorn(plain: seq<Byte>, bs: seq<Block>, b: Block)
    requires b.WellFormed() && PackAll(bs) <= plain < PackAll(bs + [b])
    ensures Ends(plain, bs)
  {
    hide Pack, Parse, PackAll;
    PackAllSnoc(bs, b);
    var k := |plain| - |PackAll(bs)|;
    assert plain[|PackAll(bs)|..] == Pack(b)[..k];
    ParseTorn(b, k);
  }

  lemma ParseNothing()
    ensures Parse([]) == Short
  {
  }

  /** A tunnel on which nothing has failed. */
  ghost predicate Intact(c: Cipher, t: Tunnel) {
    |t.salt| == c.saltSize && t.wire == Whole(c, t.salt, t.sent) && t.records == |AllRecords(t.sent)|
  }

  lemma PutWhole(c: Cipher, t: Tunnel, b: Block)
    requires c.Lawful() && Intact(c, t)
    ensures var wire, more := t.wire + Sealed(c, t, b), t.sent + [b];
            && wire == Whole(c, t.salt, more) && Ends(DecodeStream(c, wire), more)
            && t.records + |Chunks(Pack(b))| == |AllRecords(more)|
  {
    SealedExtends(c, t, b);
    hide Pack, Parse, Whole, Sealed, DecodeStream, AllRecords, PackAll, Ends, Chunks, Cipher.Lawful;
    var more := t.sent + [b];
    var whole := Whole(c, t.salt, more);
    WholeDecodes(c, t.salt, more, whole);
    EndsWhole(more);
  }

  lemma PutTorn(c: Cipher, t: Tunnel, b: Block, k: nat)
    requires c.Lawful() && Intact(c, t) && b.WellFormed() && k < |Sealed(c, t, b)|
    ensures Ends(DecodeStream(c, t.wire + Sealed(c, t, b)[..k]), t.sent)
  {
    SealedExtends(c, t, b);
    hide Pack, Whole, Sealed, DecodeStream, AllRecords, PackAll, Ends, Chunks, Cipher.Lawful;
    var w := Sealed(c, t, b);
    CutInside(t.wire, w, k);
    TornEnds(c, t.salt, t.sent, b, t.wire + w[..k]);
  }

  lemma CutInside(x: seq<Byte>, w: seq<Byte>, k: nat)
    requires k < |w|
    ensures x <= x + w[..k] < x + w
  {
  }

  lemma {:induction false} TornEnds(c: Cipher, salt: seq<Byte>, sent: seq<Block>, b: Block, wire: seq<Byte>)
    requires c.Lawful() && |salt| == c.saltSize && b.WellFormed()
    requires Whole(c, salt, sent) <= wire < Whole(c, salt, sent + [b])
    ensures Ends(DecodeStream(c, wire), sent)
  {
    hide Whole, DecodeStream, PackAll, Ends, Cipher.Lawful;
    WholeDecodes(c, salt, sent + [b], wire);
    WholeDecodes(c, salt, sent, Whole(c, salt, sent));
    DecodeStreamMore(c, Whole(c, salt, sent), wire);
    EndsTorn(DecodeStream(c, wire), sent, b);
  }

  lemma SentGrows(sent: seq<Block>, b: Block, taken: nat)
    requires AllWellFormed(sent) && b.WellFormed() && taken <= |sent|
    ensures AllWellFormed(sent + [b]) && (sent + [b])[..taken] == sent[..taken]
  {
  }

  lemma {:induction false} PutAligned(c: Cipher, t: Tunnel, b: Block, n: nat, ok: bool)
    requires c.Lawful() && Aligned(c, t) && b.WellFormed()
    ensures Aligned(c, Put(c, t, b, n, ok))
  {
    if t.writable {
      hide Pack, Whole, Sealed, DecodeStream, AllRecords, Ends, Chunks, PackAll, AllWellFormed, Cipher.Lawful;
      var w := Sealed(c, t, b);
      var k := if ok then |w| else Min(n, |w|);
      SentGrows(t.sent, b, t.taken);
      if k == |w| {
        assert w[..k] == w;
        PutWhole(c, t, b);
      } else {
        PutTorn(c, t, b, k);
      }
    }
  }

  lemma FreshAligned(c: Cipher, salt: seq<Byte>)
    requires |salt| == c.saltSize
    ensures Aligned(c, Fresh(salt))
  {
    NothingDecodes(c);
    ParseNothing();
  }

  /** The plaintext from the far end's position on. */
  lemma NextInPlain(plain: seq<Byte>, bs: seq<Block>, taken: nat)
    requires Ends(plain, bs) && AllWellFormed(bs) && taken <= |bs|
    ensures var read := |PackAll(bs[..taken])|;
            && read <= |plain|
            && Parse(plain[read..]) == (if taken < |bs| then Parsed(bs[taken], |Pack(bs[taken])|) else Short)
            && (taken < |bs| ==> read + |Pack(bs[taken])| == |PackAll(bs[..taken + 1])|)
  {
    hide Pack, Parse;
    var done, rest := bs[..taken], bs[taken..];
    assert bs == done + rest;
    PackAllAppend(done, rest);
    var tail := plain[|PackAll(bs)|..];
    assert plain == PackAll(bs) + tail;
    assert plain[|PackAll(done)|..] == PackAll(rest) + tail;
    if rest != [] {
      assert rest[0] == bs[taken];
      Assoc(Pack(rest[0]), PackAll(rest[1..]), tail);
      ParsePack(rest[0], PackAll(rest[1..]) + tail);
      PackAllSnoc(done, rest[0]);
      assert bs[..taken + 1] == done + [rest[0]];
    }
  }

  /** However much of the ciphertext it has received, the far end finds either nothing yet or exactly the next block
      sent; and it finds it when it has received all. */
  lemma NextBlock(c: Cipher, t: Tunnel, n: nat)
    requires Aligned(c, t)
    ensures Next(c, t, n).Parsed? ==>
              t.taken < |t.sent| && Next(c, t, n) == Parsed(t.sent[t.taken], |Pack(t.sent[t.taken])|)
    ensures n >= |t.wire| && t.taken < |t.sent| ==> Next(c, t, n).Parsed?
    ensures t.taken < |t.sent| ==> t.read + |Pack(t.sent[t.taken])| == |PackAll(t.sent[..t.taken + 1])|
  {
    hide Pack, Parse, DecodeStream, Ends, Whole;
    var seen := t.wire[..Min(n, |t.wire|)];
    NextInPlain(DecodeStream(c, t.wire), t.sent, t.taken);
    DecodeStreamMore(c, seen, t.wire);
    if Next(c, t, n).Parsed? {
      ParseMore(DecodeStream(c, seen)[t.read..], DecodeStream(c, t.wire)[t.read..]);
    }
    if n >= |t.wire| {
      assert seen == t.wire;
    }
  }

  /** A block that parses parses again when more follows. */
  lemma ParseMore(x: seq<Byte>, y: seq<Byte>)
    requires x <= y && Parse(x).Parsed?
    ensures Parse(y) == Parse(x)
  {
    ParseSound(x);
    var b, n := Parse(x).block, Parse(x).used;
    assert y == Pack(b) + y[n..];
    ParsePack(b, y[n..]);
  }

  // ---------------------------------------------------------------- conservation

  function Is(x: Block, b: Block): nat {
    if x == b then 1 else 0
  }

  /** How often b occurs in q. */
  function Count(q: seq<Block>, b: Block): nat {
    if q == [] then 0 else Count(q[..|q| - 1], b) + Is(q[|q| - 1], b)
  }

  lemma CountPush(q: seq<Block>, x: Block, b: Block)
    ensures Count(q + [x], b) == Count(q, b) + Is(x, b)
  {
    assert (q + [x])[..|q|] == q;
  }

  lemma {:induction false} CountWithout(q: seq<Block>, i: nat, b: Block)
    requires i < |q|
    ensures Count(q, b) == Is(q[i], b) + Count(Without(q, i), b)
  {
    var k := |q| - 1;
    if i < k {
      CountWithout(q[..k], i, b);
      assert Without(q, i)[..k - 1] == Without(q[..k], i);
    } else {
      assert Without(q, i) == q[..k];
    }
  }

  lemma CountPop(q: seq<Block>, b: Block)
    requires q != []
    ensures Count(q, b) == Is(q[0], b) + Count(q[1..], b)
  {
    CountWithout(q, 0, b);
    assert Without(q, 0) == q[1..];
  }

  lemma {:induction false} CountIn(q: seq<Block>, b: Block)
    ensures Count(q, b) > 0 <==> b in q
  {
    if q != [] {
      CountIn(q[..|q| - 1], b);
      assert q == q[..|q| - 1] + [q[|q| - 1]];
    }
  }

  function Held(t: Tunnel, b: Block): nat {
    if t.hand.Some? then Is(t.hand.value, b) else 0
  }

  function Hands(ts: seq<Tunnel>, b: Block): nat {
    if ts == [] then 0 else Hands(ts[..|ts| - 1], b) + Held(ts[|ts| - 1], b)
  }

  lemma {:induction false} HandsUpdate(ts: seq<Tunnel>, i: nat, t: Tunnel, b: Block)
    requires i < |ts|
    ensures Hands(ts[i := t], b) == Hands(ts, b) - Held(ts[i], b) + Held(t, b)
  {
    var k := |ts| - 1;
    if i < k {
      assert ts[i := t][..k] == ts[..k][i := t];
      HandsUpdate(ts[..k], i, t, b);
    } else {
      assert ts[i := t][..k] == ts[..k];
    }
  }

  lemma {:induction false} HandsHold(ts: seq<Tunnel>, i: nat, b: Block)
    requires i < |ts| && ts[i].hand == Some(b)
    ensures Hands(ts, b) > 0
  {
    if i < |ts| - 1 {
      HandsHold(ts[..|ts| - 1], i, b);
    }
  }

  /** In how many places a block is: the queues, the tunnels' hands, the retry goroutines, written or discarded. */
  function Places(s: Net, b: Block): nat {
    Count(s.poolQueue, b) + Count(s.sendQueue, b) + Count(s.retryQueue, b) + Hands(s.tunnels, b)
    + Count(s.retrying, b) + Count(s.written, b) + Count(s.discarded, b)
  }

  lemma TakeMoves(s: Net, t: nat, x: Block, b: Block)
    requires t < |s.tunnels| && s.tunnels[t].hand.None?
    ensures Hands(Take(s, t, x).tunnels, b) == Hands(s.tunnels, b) + Is(x, b)
  {
    HandsUpdate(s.tunnels, t, s.tunnels[t].(hand := Some(x)), b);
  }

  lemma PutMoves(c: Cipher, s: Net, t: nat, n: nat, ok: bool, b: Block)
    requires t < |s.tunnels| && s.tunnels[t].hand.Some?
    ensures var x := s.tunnels[t].hand.value;
            Hands(s.tunnels[t := Put(c, s.tunnels[t], x, n, ok).(hand := None)], b) == Hands(s.tunnels, b) - Is(x, b)
  {
    HandsUpdate(s.tunnels, t, Put(c, s.tunnels[t], s.tunnels[t].hand.value, n, ok).(hand := None), b);
  }

  /** A step never makes or loses a block: it moves one from one place to another. */
  lemma ApplyConserves(c: Cipher, s: Net, a: Action, b: Block)
    ensures Places(Apply(c, s, a), b) - Count(Apply(c, s, a).submitted, b) == Places(s, b) - Count(s.submitted, b)
  {
    hide Put, Next, Pack, Count, Hands, Without;
    var s' := Apply(c, s, a);
    match a {
      case Submit(x) =>
        CountPush(s.submitted, x, b);
        CountPush(s.poolQueue, x, b);
      case Relay =>
        if s.poolQueue != [] {
          CountPop(s.poolQueue, b);
          CountPush(s.sendQueue, s.poolQueue[0], b);
        }
      case Open(salt) =>
        HandsOpen(s.tunnels, salt, b);
      case TakeRetry(t) =>
        if s' != s {
          CountPop(s.retryQueue, b);
          TakeMoves(s, t, s.retryQueue[0], b);
        }
      case TakeNormal(t) =>
        if s' != s {
          CountPop(s.sendQueue, b);
          TakeMoves(s, t, s.sendQueue[0], b);
        }
      case SendOk(t) =>
        if t < |s.tunnels| && s.tunnels[t].hand.Some? {
          PutMoves(c, s, t, 0, true, b);
          CountPush(s.written, s.tunnels[t].hand.value, b);
        }
      case SendFail(t, n) =>
        if t < |s.tunnels| && s.tunnels[t].hand.Some? {
          PutMoves(c, s, t, n, false, b);
          CountPush(s.retrying, s.tunnels[t].hand.value, b);
        }
      case Requeue(i) =>
        if i < |s.retrying| {
          CountWithout(s.retrying, i, b);
          CountPush(s.retryQueue, s.retrying[i], b);
        }
      case Discard(i) =>
        if i < |s.retrying| {
          CountWithout(s.retrying, i, b);
          CountPush(s.discarded, s.retrying[i], b);
        }
      case KeepAlive(t, x, n, ok) =>
        if t < |s.tunnels| {
          PutKeepsHand(c, s.tunnels[t], x, n, ok);
          HandsUpdate(s.tunnels, t, Put(c, s.tunnels[t], x, n, ok), b);
        }
      case Hangup(t) =>
        if t < |s.tunnels| {
          HandsUpdate(s.tunnels, t, s.tunnels[t].(open := false), b);
        }
      case Arrive(t, n) =>
        if s' != s {
          HandsUpdate(s.tunnels, t, s'.tunnels[t], b);
        }
    }
  }

  lemma HandsOpen(ts: seq<Tunnel>, salt: seq<Byte>, b: Block)
    ensures Hands(ts + [Fresh(salt)], b) == Hands(ts, b)
  {
    assert (ts + [Fresh(salt)])[..|ts|] == ts;
  }

  lemma PutKeepsHand(c: Cipher, t: Tunnel, b: Block, n: nat, ok: bool)
    ensures Put(c, t, b, n, ok).hand == t.hand
  {
  }

  /** In every run, every block is in as many places as it was submitted: with distinct blocks, in exactly one. */
  lemma {:induction false} Conservation(c: Cipher, actions: seq<Action>, b: Block)
    ensures Places(Run(c, actions), b) == Count(Run(c, actions).submitted, b)
  {
    if actions != [] {
      Conservation(c, actions[..|actions| - 1], b);
      ApplyConserves(c, Run(c, actions[..|actions| - 1]), actions[|actions| - 1], b);
    }
  }

  /** So a block submitted once is written successfully at most once, and never both written and discarded. */
  lemma {:induction false} WrittenAtMostOnce(c: Cipher, actions: seq<Action>, b: Block)
    requires Count(Run(c, actions).submitted, b) <= 1
    ensures Count(Run(c, actions).written, b) + Count(Run(c, actions).discarded, b) <= 1
  {
    Conservation(c, actions, b);
  }

  // ---------------------------------------------------------------- what is delivered was submitted

  /** The non-keep-alive blocks are all among the submitted ones. */
  ghost predicate Known(submitted: seq<Block>, bs: seq<Block>) {
    forall b :: b in bs && !b.KeepAlive() ==> b in submitted
  }

  ghost predicate Healthy(c: Cipher, submitted: seq<Block>, t: Tunnel) {
    Aligned(c, t) && Known(submitted, t.sent)
  }

  ghost predicate Inv(c: Cipher, s: Net) {
    && (forall b :: Places(s, b) == Count(s.submitted, b))
    && (forall b :: b in s.submitted ==> b.WellFormed() && !b.KeepAlive())
    && (forall i :: 0 <= i < |s.tunnels| ==> Healthy(c, s.submitted, s.tunnels[i]))
    && (forall b :: b in s.delivered ==> b in s.submitted)
  }

  lemma HandKnown(c: Cipher, s: Net, t: nat)
    requires Inv(c, s) && t < |s.tunnels| && s.tunnels[t].hand.Some?
    ensures s.tunnels[t].hand.value in s.submitted
  {
    var b := s.tunnels[t].hand.value;
    HandsHold(s.tunnels, t, b);
    CountIn(s.submitted, b);
  }

  lemma PutHealthy(c: Cipher, submitted: seq<Block>, t: Tunnel, b: Block, n: nat, ok: bool)
    requires c.Lawful() && Healthy(c, submitted, t) && b.WellFormed()
    requires b in submitted || b.KeepAlive()
    ensures Healthy(c, submitted, Put(c, t, b, n, ok)) && Healthy(c, submitted, Put(c, t, b, n, ok).(hand := None))
  {
    hide Pack, Sealed, DecodeStream, Ends, Whole;
    PutAligned(c, t, b, n, ok);
  }

  lemma ArriveHealthy(c: Cipher, submitted: seq<Block>, t: Tunnel)
    requires Healthy(c, submitted, t) && t.taken < |t.sent|
    ensures Healthy(c, submitted, Taken(t, |Pack(t.sent[t.taken])|))
  {
    hide Pack, DecodeStream, Ends, Whole;
    NextBlock(c, t, 0);
  }

  lemma FreshHealthy(c: Cipher, submitted: seq<Block>, salt: seq<Byte>)
    requires |salt| == c.saltSize
    ensures Healthy(c, submitted, Fresh(salt))
  {
    FreshAligned(c, salt);
  }

  lemma ApplyInv(c: Cipher, s: Net, a: Action)
    requires c.Lawful() && Inv(c, s)
    ensures Inv(c, Apply(c, s, a))
  {
    hide Put, Next, Pack, Aligned, Places;
    var s' := Apply(c, s, a);
    forall b ensures Places(s', b) == Count(s'.submitted, b) {
      ApplyConserves(c, s, a, b);
    }
    match a {
      case Open(salt) =>
        if |salt| == c.saltSize {
          FreshHealthy(c, s.submitted, salt);
        }
      case SendOk(t) =>
        if t < |s.tunnels| && s.tunnels[t].hand.Some? {
          HandKnown(c, s, t);
          PutHealthy(c, s.submitted, s.tunnels[t], s.tunnels[t].hand.value, 0, true);
        }
      case SendFail(t, n) =>
        if t < |s.tunnels| && s.tunnels[t].hand.Some? {
          HandKnown(c, s, t);
          PutHealthy(c, s.submitted, s.tunnels[t], s.tunnels[t].hand.value, n, false);
        }
      case KeepAlive(t, b, n, ok) =>
        if t < |s.tunnels| && b.WellFormed() && b.KeepAlive() {
          PutHealthy(c, s.submitted, s.tunnels[t], b, n, ok);
        }
      case Arrive(t, n) =>
        if t < |s.tunnels| {
          NextBlock(c, s.tunnels[t], n);
          if s.tunnels[t].taken < |s.tunnels[t].sent| {
            ArriveHealthy(c, s.submitted, s.tunnels[t]);
          }
        }
      case Hangup(t) =>
        if t < |s.tunnels| {
          HandIrrelevant(c, s.submitted, s.tunnels[t]);
        }
      case TakeRetry(t) =>
        if t < |s.tunnels| {
          HandIrrelevant(c, s.submitted, s.tunnels[t]);
        }
      case TakeNormal(t) =>
        if t < |s.tunnels| {
          HandIrrelevant(c, s.submitted, s.tunnels[t]);
        }
      case _ =>
    }
  }

  lemma HandIrrelevant(c: Cipher, submitted: seq<Block>, t: Tunnel)
    requires Healthy(c, submitted, t)
    ensures forall b :: Healthy(c, submitted, t.(hand := Some(b)))
    ensures Healthy(c, submitted, t.(open := false))
  {
    hide Pack, DecodeStream, Ends, Whole;
  }

  lemma {:induction false} RunInv(c: Cipher, actions: seq<Action>)
    requires c.Lawful()
    ensures Inv(c, Run(c, actions))
  {
    if actions != [] {
      RunInv(c, actions[..|actions| - 1]);
      ApplyInv(c, Run(c, actions[..|actions| - 1]), actions[|actions| - 1]);
    }
  }

  /** Whatever the tunnels do, only submitted blocks arrive, whole and unchanged. */
  lemma OnlySubmittedArrives(c: Cipher, actions: seq<Action>, b: Block)
    requires c.Lawful() && b in Run(c, actions).delivered
    ensures b in Run(c, actions).submitted
  {
    RunInv(c, actions);
  }

  // ---------------------------------------------------------------- the queues keep their order

  ghost predicate InOrder(s: Net, j: nat, k: nat) {
    j <= k <= |s.submitted| && s.sendQueue == s.submitted[j..k] && s.poolQueue == s.submitted[k..]
  }

  lemma InOrderStep(c: Cipher, s: Net, a: Action, j: nat, k: nat) returns (j': nat, k': nat)
    requires InOrder(s, j, k)
    ensures InOrder(Apply(c, s, a), j', k')
  {
    hide Put, Next;
    j' := if a.TakeNormal? && Apply(c, s, a) != s then j + 1 else j;
    k' := if a.Relay? && Apply(c, s, a) != s then k + 1 else k;
    if a.Submit? {
      SnocSlices(s.submitted, a.b, j, k);
    }
  }

  lemma SnocSlices(bs: seq<Block>, b: Block, j: nat, k: nat)
    requires j <= k <= |bs|
    ensures (bs + [b])[j..k] == bs[j..k] && (bs + [b])[k..] == bs[k..] + [b]
  {
  }

  /** In every run the tunnels take first sends in the order of submission: the submissions fall into those taken, then
      those in the tunnel pool's queue, then those in the connection pool's. */
  lemma {:induction false} FirstSendsInOrder(c: Cipher, actions: seq<Action>) returns (j: nat, k: nat)
    ensures InOrder(Run(c, actions), j, k)
  {
    if actions == [] {
      j, k := 0, 0;
    } else {
      var m := |actions| - 1;
      j, k := FirstSendsInOrder(c, actions[..m]);
      j, k := InOrderStep(c, Run(c, actions[..m]), actions[m], j, k);
    }
  }
}
