/** block/block.go: the unit of transmission, its wire form and the parser for it. */
module Blocks {
  import opened Bytes

  const TYPE_CONNECT: Byte := 0
  const TYPE_DISCONNECT: Byte := 1
  const TYPE_DATA: Byte := 2
  const TYPE_PING: Byte := 3
  const TYPE_PONG: Byte := 4

  // The shutdown constants share the iota of the block types.
  const SHUTDOWN_READ: Byte := 5
  const SHUTDOWN_WRITE: Byte := 6
  const SHUTDOWN_BOTH: Byte := 7

  const HEADER_SIZE := 1 + 4 + 8 + 4 + 4
  const DATA_SIZE := 32 * 1024 - 13
  const MAX_SIZE := HEADER_SIZE + DATA_SIZE

  datatype Block = Block(
    kind: Byte,
    connectionID: U32,
    timeStamp: I64,
    blockID: U32,
    blockLength: U32,
    data: seq<Byte>)
  {
    /** What every constructor of the package establishes. */
    predicate WellFormed() {
      && blockLength == |data|
      && (kind == TYPE_DISCONNECT ==> |data| >= 1)
    }

    /** A block that ends the reading side of an inbound connection. */
    predicate EndsStream() {
      kind == TYPE_DISCONNECT && |data| >= 1 && data[0] in {SHUTDOWN_BOTH, SHUTDOWN_WRITE}
    }

    predicate KeepAlive() {
      kind in {TYPE_PING, TYPE_PONG}
    }

    function Payload(): seq<Byte> {
      if kind == TYPE_DATA then data else []
    }
  }

  /** uint64(int64): two's complement. */
  function Unsigned(t: I64): (u: nat)
    ensures u < TWO_64
  {
    if t < 0 then t + TWO_64 else t
  }

  function Signed(u: nat): (t: I64)
    requires u < TWO_64
  {
    if u < TWO_63 then u else u - TWO_64
  }

  function Header(kind: Byte, connectionID: U32, timeStamp: I64, blockID: U32, blockLength: U32): (h: seq<Byte>)
    ensures |h| == HEADER_SIZE
  {
    [kind] + LE(4, connectionID) + LE(8, Unsigned(timeStamp)) + LE(4, blockID) + LE(4, blockLength)
  }

  function Pack(b: Block): (s: seq<Byte>)
    ensures |s| == HEADER_SIZE + |b.data|
  {
    Header(b.kind, b.connectionID, b.timeStamp, b.blockID, b.blockLength) + b.data
  }

  /** The outcome of NewBlockFromReader on a finite stream: a block and the bytes it used, or a stream that ended. */
  datatype Parsed = Short | Parsed(block: Block, used: nat)

  function Field32(s: seq<Byte>): U32
    requires |s| == 4
  {
    Pow256Facts(); LEValRoundTrip(s);
    LEVal(s)
  }

  function Parse(s: seq<Byte>): (r: Parsed)
    ensures r.Parsed? ==> HEADER_SIZE <= r.used <= |s|
  {
    if |s| < HEADER_SIZE then Short
    else
      var length := Field32(s[17..21]);
      if |s| < HEADER_SIZE + length then Short
      else
        Pow256Facts(); LEValRoundTrip(s[5..13]);
        Parsed(Block(s[0], Field32(s[1..5]), Signed(LEVal(s[5..13])), Field32(s[13..17]), length,
                     s[HEADER_SIZE..HEADER_SIZE + length]),
               HEADER_SIZE + length)
  }

  lemma HeaderFields(b: Block, rest: seq<Byte>)
    ensures var s := Pack(b) + rest;
            && s[0] == b.kind && s[1..5] == LE(4, b.connectionID) && s[5..13] == LE(8, Unsigned(b.timeStamp))
            && s[13..17] == LE(4, b.blockID) && s[17..21] == LE(4, b.blockLength)
            && s[21..] == b.data + rest
  {
  }

  /** Two's complement, in other words. */
  lemma UnsignedIs(t: I64)
    ensures Unsigned(t) == t % TWO_64
  {
  }

  lemma FieldDigits(s: seq<Byte>, at: nat, n: nat, v: nat)
    requires at + n <= |s| && s[at..at + n] == LE(n, v)
    ensures forall i :: 0 <= i < n ==> s[at + i] == (v / Pow256(i)) % 256
  {
    forall i | 0 <= i < n ensures s[at + i] == (v / Pow256(i)) % 256 {
      LEDigit(n, v, i);
      assert s[at..at + n][i] == s[at + i];
    }
  }

  /** The layout, digit by digit: type, connection ID, time stamp modulo 2^64, block ID and length, each number in base
      256 with the lowest digit first; and then the data. */
  lemma HeaderDigits(b: Block)
    ensures var s := Pack(b);
            && |s| == 21 + |b.data| && s[0] == b.kind && s[21..] == b.data
            && (forall i :: 0 <= i < 4 ==> s[1 + i] == (b.connectionID / Pow256(i)) % 256)
            && (forall i :: 0 <= i < 8 ==> s[5 + i] == ((b.timeStamp % TWO_64) / Pow256(i)) % 256)
            && (forall i :: 0 <= i < 4 ==> s[13 + i] == (b.blockID / Pow256(i)) % 256)
            && (forall i :: 0 <= i < 4 ==> s[17 + i] == (b.blockLength / Pow256(i)) % 256)
  {
    var s := Pack(b);
    HeaderFields(b, []);
    assert s + [] == s && b.data + [] == b.data;
    UnsignedIs(b.timeStamp);
    hide LE, Pow256, Pack, Unsigned;
    FieldDigits(s, 1, 4, b.connectionID);
    FieldDigits(s, 5, 8, b.timeStamp % TWO_64);
    FieldDigits(s, 13, 4, b.blockID);
    FieldDigits(s, 17, 4, b.blockLength);
  }

  /** Parsing undoes packing, whatever follows on the stream. */
  lemma ParsePack(b: Block, rest: seq<Byte>)
    requires b.blockLength == |b.data|
    ensures Parse(Pack(b) + rest) == Parsed(b, |Pack(b)|)
  {
    HeaderFields(b, rest);
    Pow256Facts();
    LERoundTrip(4, b.connectionID);
    LERoundTrip(8, Unsigned(b.timeStamp));
    LERoundTrip(4, b.blockID);
    LERoundTrip(4, b.blockLength);
    var s := Pack(b) + rest;
    assert s[21..21 + |b.data|] == s[21..][..|b.data|] == b.data;
  }

  /** No proper prefix of a packed block is itself a block. */
  lemma ParseTorn(b: Block, n: nat)
    requires b.blockLength == |b.data|
    requires n < |Pack(b)|
    ensures Parse(Pack(b)[..n]) == Short
  {
    if n >= HEADER_SIZE {
      HeaderFields(b, []);
      assert Pack(b) + [] == Pack(b);
      assert Pack(b)[..n][17..21] == Pack(b)[17..21];
      Pow256Facts();
      LERoundTrip(4, b.blockLength);
    }
  }

  /** Whatever parses was packed: the parser accepts no second spelling of a block. */
  lemma ParseSound(s: seq<Byte>)
    requires Parse(s).Parsed?
    ensures var p := Parse(s); p.block.blockLength == |p.block.data| && Pack(p.block) == s[..p.used]
  {
    var b := Parse(s).block;
    LEValRoundTrip(s[1..5]);
    LEValRoundTrip(s[5..13]);
    LEValRoundTrip(s[13..17]);
    LEValRoundTrip(s[17..21]);
    var t := s[..Parse(s).used];
    assert t == [s[0]] + s[1..5] + s[5..13] + s[13..17] + s[17..21] + b.data;
  }

  function PackAll(bs: seq<Block>): seq<Byte> {
    if bs == [] then [] else Pack(bs[0]) + PackAll(bs[1..])
  }

  lemma {:induction false} PackAllAppend(a: seq<Block>, b: seq<Block>)
    ensures PackAll(a + b) == PackAll(a) + PackAll(b)
  {
    if a == [] {
      assert a + b == b;
    } else {
      assert (a + b)[1..] == a[1..] + b;
      PackAllAppend(a[1..], b);
    }
  }

  /** Every block on a stream, up to the point where the stream ends inside one. */
  function ParseAll(s: seq<Byte>): seq<Block>
    decreases |s|
  {
    match Parse(s)
    case Short => []
    case Parsed(b, n) => [b] + ParseAll(s[n..])
  }

  predicate AllWellFormed(bs: seq<Block>) {
    forall i :: 0 <= i < |bs| ==> bs[i].WellFormed()
  }

  lemma ParseAllHead(b: Block, rest: seq<Byte>)
    requires b.blockLength == |b.data|
    ensures ParseAll(Pack(b) + rest) == [b] + ParseAll(rest)
  {
    ParsePack(b, rest);
    assert (Pack(b) + rest)[|Pack(b)|..] == rest;
  }

  lemma ParseAllCutCons(b: Block, bs: seq<Block>, rest: seq<Byte>, n: nat)
    requires b.blockLength == |b.data|
    requires |Pack(b)| <= n <= |Pack(b) + rest|
    requires ParseAll(rest[..n - |Pack(b)|]) <= bs
    ensures ParseAll((Pack(b) + rest)[..n]) == [b] + ParseAll(rest[..n - |Pack(b)|]) <= [b] + bs
  {
    CutAfter(Pack(b), rest, n);
    ParseAllHead(b, rest[..n - |Pack(b)|]);
  }

  lemma ParseAllNothing()
    ensures ParseAll([]) == []
  {
  }

  lemma ParseAllTorn(b: Block, n: nat)
    requires b.WellFormed() && n < |Pack(b)|
    ensures ParseAll(Pack(b)[..n]) == []
  {
    ParseTorn(b, n);
  }

  /** A stream of packed blocks cut anywhere parses to the blocks it holds completely: always a prefix of
      those sent, and all of them when the stream is whole. */
  lemma {:induction false} ParseAllCut(bs: seq<Block>, n: nat)
    requires AllWellFormed(bs)
    requires n <= |PackAll(bs)|
    ensures ParseAll(PackAll(bs)[..n]) <= bs
    ensures n == |PackAll(bs)| ==> ParseAll(PackAll(bs)[..n]) == bs
  {
    ParseAllNothing();
    hide Pack, Parse, ParseAll;
    if bs != [] {
      var head, rest := Pack(bs[0]), PackAll(bs[1..]);
      if n < |head| {
        ParseAllTorn(bs[0], n);
        assert (head + rest)[..n] == head[..n];
      } else {
        ParseAllCut(bs[1..], n - |head|);
        ParseAllCutCons(bs[0], bs[1..], rest, n);
        assert bs == [bs[0]] + bs[1..];
      }
    }
  }

  /** The application bytes carried by a list of blocks. */
  function Payloads(bs: seq<Block>): seq<Byte> {
    if bs == [] then [] else bs[0].Payload() + Payloads(bs[1..])
  }

  lemma {:induction false} PayloadsAppend(a: seq<Block>, b: seq<Block>)
    ensures Payloads(a + b) == Payloads(a) + Payloads(b)
  {
    if a == [] {
      assert a + b == b;
    } else {
      assert (a + b)[1..] == a[1..] + b;
      PayloadsAppend(a[1..], b);
    }
  }

  lemma PayloadsSnoc(a: seq<Block>, b: Block)
    ensures Payloads(a + [b]) == Payloads(a) + b.Payload()
  {
    PayloadsAppend(a, [b]);
    assert Payloads([b]) == b.Payload() + Payloads([]);
  }

  lemma PayloadsPrefix(a: seq<Block>, b: seq<Block>)
    requires a <= b
    ensures Payloads(a) <= Payloads(b)
  {
    assert b == a + b[|a|..];
    PayloadsAppend(a, b[|a|..]);
  }
}
