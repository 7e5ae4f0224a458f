/** connection/connection.go and the constructors of block/block.go: numbering and cutting up what is sent, on the
    heap, where a block's data still aliases the buffer it was cut from. */
module Sending {
  import opened Bytes
  import opened Blocks

  /** A block as the program passes it around: a struct holding slices. */
  datatype BlockValue = BlockValue(
    kind: Byte, connectionID: U32, timeStamp: I64, blockID: U32, blockLength: U32,
    source: array<Byte>, lo: nat, hi: nat,
    packed: array?<Byte>)
  {
    /** The array that decides what goes on the wire. */
    function Footprint(): array<Byte> {
      if packed != null then packed else source
    }

    ghost predicate InBounds() {
      lo <= hi <= source.Length
    }

    /** What Pack puts on the wire now. */
    ghost function Wire(): seq<Byte>
      requires InBounds()
      reads Footprint()
    {
      if packed != null then packed[..]
      else Header(kind, connectionID, timeStamp, blockID, blockLength) + source[lo..hi]
    }

    /** Pack memoises the encoded form. */
    method Pack() returns (memoised: BlockValue, wire: array<Byte>)
      requires InBounds()
      ensures wire[..] == Wire()
      ensures memoised == this.(packed := wire)
      ensures packed != null ==> wire == packed
      ensures packed == null ==> fresh(wire)
    {
      if packed != null {
        return this, packed;
      }
      var bytes := Header(kind, connectionID, timeStamp, blockID, blockLength) + source[lo..hi];
      wire := new Byte[|bytes|](i requires 0 <= i < |bytes| => bytes[i]);
      memoised := this.(packed := wire);
    }
  }

  ghost predicate Frozen(v: BlockValue, b: Block, owned: set<array<Byte>>)
    reads owned
  {
    v.InBounds() && v.Footprint() in owned && v.Wire() == Pack(b)
  }

  lemma ModSucc(n: nat)
    ensures (n % TWO_32 + 1) % TWO_32 == (n + 1) % TWO_32
  {
  }

  /** Where the i-th piece of n bytes starts. */
  function Cut(i: nat, n: nat): nat {
    Min(i * DATA_SIZE, n)
  }

  /** The blocks are the consecutive pieces of the bytes, all full except perhaps the last. */
  ghost predicate Pieces(blocks: seq<Block>, bytes: seq<Byte>) {
    forall i :: 0 <= i < |blocks| ==>
      && blocks[i].kind == TYPE_DATA
      && i * DATA_SIZE < |bytes|
      && blocks[i].data == bytes[Cut(i, |bytes|)..Cut(i + 1, |bytes|)]
  }

  function CeilDiv(n: nat, d: nat): nat
    requires d > 0
  {
    (n + d - 1) / d
  }

  lemma CutStep(i: nat, n: nat)
    ensures Cut(i, n) <= Cut(i + 1, n) <= n
  {
  }

  lemma Join(s: seq<Byte>, lo: nat, hi: nat)
    requires lo <= hi <= |s|
    ensures s[..lo] + s[lo..hi] == s[..hi]
  {
  }

  lemma {:induction false} PiecesPayload(blocks: seq<Block>, bytes: seq<Byte>)
    requires Pieces(blocks, bytes)
    ensures Payloads(blocks) == bytes[..Cut(|blocks|, |bytes|)]
  {
    if blocks != [] {
      var k := |blocks| - 1;
      var init := blocks[..k];
      assert blocks == init + [blocks[k]];
      PiecesPayload(init, bytes);
      PayloadsSnoc(init, blocks[k]);
      CutStep(k, |bytes|);
      hide Cut, Payloads;
      Join(bytes, Cut(k, |bytes|), Cut(k + 1, |bytes|));
    }
  }

  lemma PiecesAreData(blocks: seq<Block>, bytes: seq<Byte>)
    requires Pieces(blocks, bytes)
    ensures forall i :: 0 <= i < |blocks| ==> blocks[i].kind == TYPE_DATA
  {
  }

  lemma SliceWithin(s: seq<Byte>, n: nat, lo: nat, hi: nat)
    requires lo <= hi <= n <= |s|
    ensures s[..n][lo..hi] == s[lo..hi]
  {
  }

  lemma PiecesSnoc(blocks: seq<Block>, b: Block, bytes: seq<Byte>)
    requires Pieces(blocks, bytes)
    requires b.kind == TYPE_DATA && |blocks| * DATA_SIZE < |bytes|
    requires b.data == bytes[Cut(|blocks|, |bytes|)..Cut(|blocks| + 1, |bytes|)]
    ensures Pieces(blocks + [b], bytes)
  {
  }

  lemma PiecesCount(blocks: seq<Block>, bytes: seq<Byte>)
    requires Pieces(blocks, bytes) && Cut(|blocks|, |bytes|) == |bytes|
    ensures |blocks| == CeilDiv(|bytes|, DATA_SIZE)
  {
    var k := |blocks|;
    assert k > 0 ==> (k - 1) * DATA_SIZE < |bytes| by {
      if k > 0 {
        var last := blocks[k - 1];
      }
    }
  }

  /** The sending half of a connection. */
  class BaseConnection {
    const connectionID: U32
    var sendBlockID: U32
    var sendQueue: seq<BlockValue>
    var stopped: bool

    ghost var issued: seq<Block>
    ghost var owned: set<array<Byte>>

    /** IDs count up from zero without gap or repeat (modulo 2^32), and what each queued block puts on the wire was
        fixed when it was issued and depends only on arrays the caller never sees. */
    ghost predicate Valid()
      reads this, owned
    {
      && sendBlockID == |issued| % TWO_32
      && |sendQueue| == |issued|
      && (forall i :: 0 <= i < |issued| ==> Numbered(issued[i], i))
      && (forall i :: 0 <= i < |issued| ==> Frozen(sendQueue[i], issued[i], owned))
    }

    ghost predicate Numbered(b: Block, i: nat) {
      && b.blockID == i % TWO_32
      && b.connectionID == connectionID
      && b.WellFormed()
      && (b.kind == TYPE_DATA ==> 1 <= |b.data| <= DATA_SIZE)
    }

    constructor (connectionID: U32)
      ensures Valid() && this.connectionID == connectionID && issued == [] && owned == {} && !stopped
    {
      this.connectionID := connectionID;
      sendBlockID, sendQueue, stopped := 0, [], false;
      issued, owned := [], {};
    }

    /** blockID.Inc() - 1 followed by the send on the queue. */
    method Issue(v: BlockValue, ghost b: Block)
      requires Valid()
      requires v.InBounds() && v.Wire() == Pack(b)
      requires Numbered(b, |issued|)
      modifies this`sendBlockID, this`sendQueue, this`issued, this`owned
      ensures Valid()
      ensures issued == old(issued) + [b] && owned == old(owned) + {v.Footprint()}
    {
      ModSucc(|issued|);
      sendBlockID := (sendBlockID + 1) % TWO_32;
      sendQueue := sendQueue + [v];
      issued := issued + [b];
      owned := owned + {v.Footprint()};
    }

    /** newDataBlock, which packs at once, so that the copy is made before the buffer can change. */
    method SendPiece(data: array<Byte>, lo: nat, hi: nat) returns (ghost b: Block)
      requires Valid() && data !in owned
      requires lo < hi <= data.Length && hi - lo <= DATA_SIZE
      modifies this`sendBlockID, this`sendQueue, this`issued, this`owned
      ensures Valid() && data !in owned && fresh(owned - old(owned))
      ensures issued == old(issued) + [b]
      ensures b.kind == TYPE_DATA && b.data == old(data[lo..hi])
    {
      var now: I64 := *;
      var v := BlockValue(TYPE_DATA, connectionID, now, sendBlockID, hi - lo, data, lo, hi, null);
      b := Block(TYPE_DATA, connectionID, now, sendBlockID, hi - lo, data[lo..hi]);
      var packedValue, wire := v.Pack();
      Issue(packedValue, b);
    }

    /** The loop of NewDataBlocks over data[..n]. */
    method SendPieces(data: array<Byte>, n: nat) returns (ghost pieces: seq<Block>)
      requires Valid() && data !in owned
      requires n <= data.Length
      modifies this`sendBlockID, this`sendQueue, this`issued, this`owned
      ensures Valid() && data !in owned && fresh(owned - old(owned))
      ensures issued == old(issued) + pieces
      ensures Pieces(pieces, data[..n]) && Cut(|pieces|, n) == n
    {
      ghost var bytes := data[..n];
      pieces := [];
      var cursor := 0;
      while cursor < n
        invariant Valid() && data !in owned && fresh(owned - old(owned))
        invariant cursor == Cut(|pieces|, n)
        invariant issued == old(issued) + pieces
        invariant data[..n] == bytes && Pieces(pieces, bytes)
      {
        var end := cursor + DATA_SIZE;
        if n < end {
          end := n;
        }
        assert data[..][..n] == bytes && data[..][cursor..end] == data[cursor..end];
        SliceWithin(data[..], n, cursor, end);
        ghost var b := SendPiece(data, cursor, end);
        PiecesSnoc(pieces, b, bytes);
        Assoc(old(issued), pieces, [b]);
        pieces := pieces + [b];
        cursor := end;
      }
    }

    /** packData and the sends of sendData over data[..n]. */
    method SendData(data: array<Byte>, n: nat)
      requires Valid() && data !in owned
      requires n <= data.Length
      modifies this`sendBlockID, this`sendQueue, this`issued, this`owned
      ensures Valid() && data !in owned && fresh(owned - old(owned))
      ensures old(issued) <= issued
      ensures Pieces(issued[|old(issued)|..], data[..n])
      ensures |issued| == |old(issued)| + CeilDiv(n, DATA_SIZE)
      ensures Payloads(issued) == old(Payloads(issued)) + data[..n]
    {
      ghost var pieces := SendPieces(data, n);
      PiecesPayload(pieces, data[..n]);
      PiecesCount(pieces, data[..n]);
      PayloadsAppend(old(issued), pieces);
      assert issued[|old(issued)|..] == pieces;
    }

    method SendConnect(address: seq<Byte>)
      requires Valid() && |address| < TWO_32
      modifies this`sendBlockID, this`sendQueue, this`issued, this`owned
      ensures Valid() && fresh(owned - old(owned))
      ensures |issued| == |old(issued)| + 1 && old(issued) == issued[..|old(issued)|]
      ensures issued[|old(issued)|].kind == TYPE_CONNECT && issued[|old(issued)|].data == address
      ensures Payloads(issued) == old(Payloads(issued))
    {
      SendControl(TYPE_CONNECT, address);
    }

    /** A full shutdown also stops the connection and takes it out of its pool. */
    method SendDisconnect(how: Byte)
      requires Valid()
      modifies this`sendBlockID, this`sendQueue, this`issued, this`owned, this`stopped
      ensures stopped <==> old(stopped) || how == SHUTDOWN_BOTH
      ensures Valid() && fresh(owned - old(owned))
      ensures |issued| == |old(issued)| + 1 && old(issued) == issued[..|old(issued)|]
      ensures issued[|old(issued)|].kind == TYPE_DISCONNECT && issued[|old(issued)|].data == [how]
      ensures Payloads(issued) == old(Payloads(issued))
    {
      SendControl(TYPE_DISCONNECT, [how]);
      if how == SHUTDOWN_BOTH {
        stopped := true;
      }
    }

    /** A block that owns its data and is packed only when a tunnel sends it. */
    method SendControl(kind: Byte, data: seq<Byte>)
      requires Valid() && kind in {TYPE_CONNECT, TYPE_DISCONNECT}
      requires |data| < TWO_32 && (kind == TYPE_DISCONNECT ==> |data| == 1)
      modifies this`sendBlockID, this`sendQueue, this`issued, this`owned
      ensures Valid() && fresh(owned - old(owned))
      ensures |issued| == |old(issued)| + 1 && old(issued) == issued[..|old(issued)|]
      ensures issued[|old(issued)|].kind == kind && issued[|old(issued)|].data == data
      ensures Payloads(issued) == old(Payloads(issued))
    {
      var now: I64 := *;
      var own := new Byte[|data|](i requires 0 <= i < |data| => data[i]);
      assert own[0..|data|] == data;
      var v := BlockValue(kind, connectionID, now, sendBlockID, |data|, own, 0, |data|, null);
      ghost var b := Block(kind, connectionID, now, sendBlockID, |data|, data);
      PayloadsSnoc(issued, b);
      Issue(v, b);
    }

    /** Data blocks were added, and nothing else. */
    ghost predicate OnlyData(before: seq<Block>, after: seq<Block>) {
      before <= after && forall i :: |before| <= i < |after| ==> after[i].kind == TYPE_DATA
    }

    /** Data blocks were added, and one disconnect of both directions. */
    ghost predicate DataThenDisconnect(before: seq<Block>, after: seq<Block>) {
      && |after| > 0 && OnlyData(before, after[..|after| - 1])
      && after[|after| - 1].kind == TYPE_DISCONNECT && after[|after| - 1].data == [SHUTDOWN_BOTH]
    }

    method RelayBytes(recvBuffer: array<Byte>, bytes: seq<Byte>)
      requires Valid() && recvBuffer !in owned && |bytes| <= recvBuffer.Length
      modifies this`sendBlockID, this`sendQueue, this`issued, this`owned, recvBuffer
      ensures Valid() && recvBuffer !in owned && fresh(owned - old(owned))
      ensures Payloads(issued) == old(Payloads(issued)) + bytes
      ensures OnlyData(old(issued), issued)
    {
      Overwrite(recvBuffer, bytes);
      SendData(recvBuffer, |bytes|);
      PiecesAreData(issued[|old(issued)|..], recvBuffer[..|bytes|]);
    }

    /** RecvRelay: one buffer, of any configured size, is overwritten by every read of the real socket, yet every
        queued block keeps the bytes of its own read, and together they carry what was read, in order. The context is
        done from doneAfter reads on; then time is up after patience more. SendRelay may have told the far end already
        that the connection is closed. k reads are made. */
    method RecvRelay(outboundRecvBuffer: nat, socketReads: seq<SocketRead>, doneAfter: nat, patience: nat, told: bool)
        returns (k: nat, cancelled: bool)
      requires Valid() && Fitting(socketReads, outboundRecvBuffer)
      modifies this`sendBlockID, this`sendQueue, this`issued, this`owned, this`stopped
      ensures Valid() && k <= |socketReads|
      ensures Payloads(issued) == old(Payloads(issued)) + BytesRead(socketReads[..k])
      // up to the end of the stream, or past the cancellation to the first read that brings nothing
      ensures cancelled <==> SeesDone(socketReads, doneAfter)
      ensures if cancelled then ReadOut(socketReads, Seen(doneAfter), k, patience)
              else NoneEnded(socketReads, k - 1) && (k == |socketReads| || (k > 0 && socketReads[k - 1].Ended?))
      // at the end of the stream, unless it was told, the far end gets one disconnect, and the connection stops
      ensures if !cancelled && k > 0 && socketReads[k - 1].Ended? && !told
              then stopped && DataThenDisconnect(old(issued), issued)
              else OnlyData(old(issued), issued) && stopped == old(stopped)
    {
      hide Payloads, DataThenDisconnect, ReadOut, Valid, Fitting;
      assert BytesRead(socketReads[..0]) == [];
      hide BytesRead;
      var recvBuffer := new Byte[outboundRecvBuffer];
      k, cancelled := 0, false;
      while k < |socketReads|
        invariant k <= |socketReads| && !cancelled && stopped == old(stopped)
        invariant NoneEnded(socketReads, k) && (k == 0 || k < doneAfter)
        invariant OnlyData(old(issued), issued)
        invariant Valid() && recvBuffer !in owned && fresh(owned - old(owned))
        invariant Payloads(issued) == old(Payloads(issued)) + BytesRead(socketReads[..k])
      {
        RelayRead(recvBuffer, socketReads, k, old(Payloads(issued)));
        k := k + 1;
        if socketReads[k - 1].Ended? {
          CloseOnce(told, old(issued));
          return;
        }
        if doneAfter <= k {
          cancelled := true;
          k := ReadRemaining(recvBuffer, socketReads, k, patience, old(Payloads(issued)));
          return;
        }
      }
    }

    /** closeThenCancelWithOnceSend. */
    method CloseOnce(told: bool, ghost before: seq<Block>)
      requires Valid() && OnlyData(before, issued)
      modifies this`sendBlockID, this`sendQueue, this`issued, this`owned, this`stopped
      ensures Valid() && Payloads(issued) == old(Payloads(issued))
      ensures if !told then stopped && DataThenDisconnect(before, issued)
              else issued == old(issued) && stopped == old(stopped)
    {
      hide Payloads;
      if !told {
        SendDisconnect(SHUTDOWN_BOTH);
        assert issued[..|issued| - 1] == old(issued);
      }
    }

    /** Sends what the k-th read brought, if it brought anything. */
    method RelayRead(recvBuffer: array<Byte>, socketReads: seq<SocketRead>, k: nat, ghost before: seq<Byte>)
      requires Valid() && recvBuffer !in owned
      requires Fitting(socketReads, recvBuffer.Length) && k < |socketReads|
      requires Payloads(issued) == before + BytesRead(socketReads[..k])
      modifies this`sendBlockID, this`sendQueue, this`issued, this`owned, recvBuffer
      ensures Valid() && recvBuffer !in owned && fresh(owned - old(owned))
      ensures Payloads(issued) == before + BytesRead(socketReads[..k + 1])
      ensures OnlyData(old(issued), issued)
    {
      hide Payloads;
      BytesReadNext(socketReads, k);
      Assoc(before, BytesRead(socketReads[..k]), socketReads[k].Got());
      if socketReads[k].Bytes? {
        RelayBytes(recvBuffer, socketReads[k].bytes);
      }
    }

    /** After cancellation: reads on until a read brings nothing, or time is up. */
    method ReadRemaining(recvBuffer: array<Byte>, socketReads: seq<SocketRead>, from: nat, patience: nat,
                         ghost before: seq<Byte>) returns (k: nat)
      requires Valid() && recvBuffer !in owned
      requires Fitting(socketReads, recvBuffer.Length) && from <= |socketReads|
      requires Payloads(issued) == before + BytesRead(socketReads[..from])
      modifies this`sendBlockID, this`sendQueue, this`issued, this`owned, recvBuffer
      ensures Valid() && k <= |socketReads| && ReadOut(socketReads, from, k, patience) && fresh(owned - old(owned))
      ensures Payloads(issued) == before + BytesRead(socketReads[..k])
      ensures OnlyData(old(issued), issued)
    {
      hide Payloads;
      k := from;
      while k < |socketReads| && k - from < patience
        invariant from <= k <= |socketReads| && k - from <= patience && OnlyData(old(issued), issued)
        invariant forall i :: from <= i < k ==> socketReads[i].Bytes?
        invariant Valid() && recvBuffer !in owned && fresh(owned - old(owned))
        invariant Payloads(issued) == before + BytesRead(socketReads[..k])
      {
        RelayRead(recvBuffer, socketReads, k, before);
        k := k + 1;
        if !socketReads[k - 1].Bytes? {
          return;
        }
      }
    }

    /** What a tunnel sends for a queued block, and sends again on a retry, stays the same while the caller's
        buffer is rewritten in between. */
    method Retransmit(i: nat, buffer: array<Byte>, noise: seq<Byte>) returns (first: seq<Byte>, second: seq<Byte>)
      requires Valid() && i < |issued| && buffer !in owned
      requires |noise| <= buffer.Length
      modifies buffer
      ensures Valid()
      ensures first == second == Pack(issued[i])
    {
      var v, wire := sendQueue[i].Pack();
      first := wire[..];
      Overwrite(buffer, noise);
      v, wire := v.Pack();
      second := wire[..];
    }
  }

  /** A read of the real socket: bytes, a timeout, or an end of stream or other error. */
  datatype SocketRead = Bytes(bytes: seq<Byte>) | Timeout | Ended
  {
    function Got(): seq<Byte> {
      if Bytes? then bytes else []
    }
  }

  /** None of the first k reads ended the stream. */
  predicate NoneEnded(socketReads: seq<SocketRead>, k: int) {
    forall i :: 0 <= i < k && i < |socketReads| ==> !socketReads[i].Ended?
  }

  /** The context is looked at after each read, the first time after one. */
  function Seen(doneAfter: nat): nat {
    if doneAfter == 0 then 1 else doneAfter
  }

  predicate SeesDone(socketReads: seq<SocketRead>, doneAfter: nat) {
    Seen(doneAfter) <= |socketReads| && NoneEnded(socketReads, Seen(doneAfter))
  }

  /** Reading goes on from `from` to k: up to the first read that brings nothing, at most patience reads. */
  predicate ReadOut(socketReads: seq<SocketRead>, from: nat, k: nat, patience: nat) {
    && from <= k <= |socketReads| && k - from <= patience
    && (forall i :: from <= i < k - 1 ==> socketReads[i].Bytes?)
    && (k == |socketReads| || k - from == patience || (k > from && !socketReads[k - 1].Bytes?))
  }

  predicate Fitting(socketReads: seq<SocketRead>, size: nat) {
    forall i :: 0 <= i < |socketReads| ==> |socketReads[i].Got()| <= size
  }

  /** What the reads brought, in order. */
  function BytesRead(socketReads: seq<SocketRead>): seq<Byte> {
    if socketReads == [] then []
    else BytesRead(socketReads[..|socketReads| - 1]) + socketReads[|socketReads| - 1].Got()
  }

  lemma BytesReadNext(socketReads: seq<SocketRead>, k: nat)
    requires k < |socketReads|
    ensures BytesRead(socketReads[..k + 1]) == BytesRead(socketReads[..k]) + socketReads[k].Got()
  {
    assert socketReads[..k + 1][..k] == socketReads[..k];
  }

  method Overwrite(buffer: array<Byte>, bytes: seq<Byte>)
    requires |bytes| <= buffer.Length
    modifies buffer
    ensures buffer[..|bytes|] == bytes
  {
    forall i | 0 <= i < |bytes| {
      buffer[i] := bytes[i];
    }
  }
}
