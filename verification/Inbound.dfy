/** connection/ring_buffer.go and connection/inbound_connection.go: the reading end of a dialled connection. */
module Inbound {
  import opened Bytes
  import opened Blocks

  /** Holds the part of a block that the caller's buffer had no room for. */
  class ByteRingBuffer {
    var buffer: array<Byte>
    var head: nat
    var tail: nat

    ghost predicate Valid()
      reads this
    {
      head <= tail <= buffer.Length
    }

    ghost function Contents(): seq<Byte>
      requires Valid()
      reads this, buffer
    {
      buffer[head..tail]
    }

    constructor (size: nat)
      ensures Valid() && Contents() == [] && fresh(buffer)
    {
      buffer := new Byte[size];
      head, tail := 0, 0;
    }

    /** Discards whatever was held. */
    method OverWrite(data: seq<Byte>)
      requires Valid()
      modifies this, buffer
      ensures Valid() && Contents() == data
      ensures buffer == old(buffer) || fresh(buffer)
    {
      if buffer.Length < |data| {
        buffer := new Byte[|data|];
      }
      forall i | 0 <= i < |data| {
        buffer[i] := data[i];
      }
      head, tail := 0, |data|;
    }

    /** Moves bytes to dst[from..]. */
    method Read(dst: array<Byte>, from: nat) returns (n: nat)
      requires Valid()
      requires from <= dst.Length && dst != buffer
      modifies this`head, dst
      ensures Valid()
      ensures n == Min(dst.Length - from, |old(Contents())|)
      ensures dst[..from + n] == old(dst[..from]) + old(Contents())[..n]
      ensures forall i :: from + n <= i < dst.Length ==> dst[i] == old(dst[i])
      ensures Contents() == old(Contents())[n..]
    {
      n := Min(dst.Length - from, tail - head);
      forall i | 0 <= i < n {
        dst[from + i] := buffer[head + i];
      }
      head := head + n;
    }

    predicate Empty()
      reads this
    {
      tail - head == 0
    }
  }

  /** The history of a reader: the blocks it took off its queue, the bytes it still holds, the bytes it returned. */
  datatype Reading = Reading(consumed: seq<Block>, staging: seq<Byte>, returned: seq<Byte>)
  {
    /** Nothing is lost, repeated or reordered between the queue and the caller. */
    ghost predicate Faithful() {
      returned + staging == Payloads(consumed)
    }
  }

  /** Taking blocks off the queue and returning the first n bytes then available. */
  function Serve(v: Reading, blocks: seq<Block>, n: nat): Reading
    requires n <= |v.staging + Payloads(blocks)|
  {
    var available := v.staging + Payloads(blocks);
    Reading(v.consumed + blocks, available[n..], v.returned + available[..n])
  }

  lemma ServeFaithful(v: Reading, blocks: seq<Block>, n: nat)
    requires v.Faithful()
    requires n <= |v.staging + Payloads(blocks)|
    ensures Serve(v, blocks, n).Faithful()
  {
    var available := v.staging + Payloads(blocks);
    PayloadsAppend(v.consumed, blocks);
    Assoc(v.returned, v.staging, Payloads(blocks));
    Assoc(v.returned, available[..n], available[n..]);
    SplitAt(available, n);
  }

  /** Conversely, a faithful reader that took these blocks and returned these bytes did exactly that. */
  lemma FaithfulServes(v: Reading, w: Reading, blocks: seq<Block>, got: seq<Byte>)
    requires v.Faithful() && w.Faithful()
    requires w.consumed == v.consumed + blocks && w.returned == v.returned + got
    ensures |got| <= |v.staging + Payloads(blocks)| && w == Serve(v, blocks, |got|)
  {
    var available := v.staging + Payloads(blocks);
    PayloadsAppend(v.consumed, blocks);
    Assoc(v.returned, v.staging, Payloads(blocks));
    Assoc(v.returned, got, w.staging);
    var all := v.returned + available;
    assert all == v.returned + (got + w.staging);
    assert available == all[|v.returned|..] == got + w.staging;
  }

  /** The block asks for this kind of shutdown. */
  predicate Asks(b: Block, how: Byte) {
    b.kind == TYPE_DISCONNECT && |b.data| >= 1 && b.data[0] == how
  }

  predicate Shuts(bs: seq<Block>, how: Byte) {
    bs != [] && (Asks(bs[|bs| - 1], how) || Shuts(bs[..|bs| - 1], how))
  }

  lemma ShutsSnoc(bs: seq<Block>, b: Block, how: Byte)
    ensures Shuts(bs + [b], how) <==> Shuts(bs, how) || Asks(b, how)
  {
    assert (bs + [b])[..|bs|] == bs;
  }

  lemma {:induction false} ShutsIff(bs: seq<Block>, how: Byte)
    ensures Shuts(bs, how) <==> exists b :: b in bs && Asks(b, how)
  {
    if bs != [] {
      ShutsIff(bs[..|bs| - 1], how);
      assert bs == bs[..|bs| - 1] + [bs[|bs| - 1]];
    }
  }

  lemma MoveKeeps(base: seq<Byte>, before: seq<Byte>, staged: seq<Byte>, n: nat)
    requires n <= |staged|
    ensures base + before + staged[..n] == base + (before + staged[..n])
    ensures base + before + staged[..n] + staged[n..] == base + before + staged
  {
    SplitAt(staged, n);
    Assoc(base + before, staged[..n], staged[n..]);
  }

  lemma PushKeeps(queue: seq<Block>, incoming: seq<Block>, n: nat)
    requires n <= |incoming|
    ensures queue + incoming[..n] + incoming[n..] == queue + incoming
  {
  }

  lemma PopKeeps(consumed: seq<Block>, queue: seq<Block>, incoming: seq<Block>)
    requires queue != []
    ensures consumed + [queue[0]] + (queue[1..] + incoming) == consumed + [] + (queue + incoming)
  {
    assert queue == [queue[0]] + queue[1..];
  }

  lemma NothingServed(v: Reading, blocks: seq<Block>)
    ensures v.staging == [] && Serve(v, blocks, 0).staging == [] ==> Payloads(blocks) == []
  {
    if v.staging == [] {
      assert (v.staging + Payloads(blocks))[0..] == Payloads(blocks);
    }
  }

  /** Serving without taking a block uses up what is staged. */
  lemma ServeProgress(v: Reading, blocks: seq<Block>, n: nat)
    requires n <= |v.staging + Payloads(blocks)|
    ensures blocks == [] ==> |Serve(v, blocks, n).staging| == |v.staging| - n
  {
  }

  /** If only the last block of a stream ends it, whoever has consumed an ending block has consumed all. */
  lemma EndIsLast(consumed: seq<Block>, stream: seq<Block>)
    requires consumed <= stream && (Shuts(consumed, SHUTDOWN_BOTH) || Shuts(consumed, SHUTDOWN_WRITE))
    ensures (forall i :: 0 <= i < |stream| - 1 ==> !stream[i].EndsStream()) ==> consumed == stream
  {
    ShutsIff(consumed, SHUTDOWN_BOTH);
    ShutsIff(consumed, SHUTDOWN_WRITE);
    var b :| b in consumed && (Asks(b, SHUTDOWN_BOTH) || Asks(b, SHUTDOWN_WRITE));
    var i :| 0 <= i < |consumed| && consumed[i] == b;
    assert stream[i].EndsStream();
  }

  datatype Arm = Got(blk: Block) | Done | Default

  /** A reader that is not closed locally. The producer's blocks form a stream: those consumed, those in the queue,
      and those still incoming, some of which may enter the queue at every select. expires says that readCtx may be done
      at any time; if not, it is done only when nothing is left to wait for. */
  class InboundConnection {
    const dataBuffer: ByteRingBuffer
    var orderedRecvQueue: seq<Block>
    var incoming: seq<Block>
    var closed: bool
    var readClosed: bool
    var writeClosed: bool
    const expires: bool

    ghost const stream: seq<Block>
    ghost var consumed: seq<Block>
    ghost var returned: seq<Byte>

    ghost function View(): Reading
      requires dataBuffer.Valid()
      reads this, dataBuffer, dataBuffer.buffer
    {
      Reading(consumed, dataBuffer.Contents(), returned)
    }

    /** The flags record exactly the shutdowns consumed so far. */
    ghost predicate Flags()
      reads this
    {
      && (closed <==> Shuts(consumed, SHUTDOWN_BOTH))
      && (readClosed <==> Shuts(consumed, SHUTDOWN_WRITE))
      && (writeClosed <==> Shuts(consumed, SHUTDOWN_READ))
    }

    ghost predicate Holding(inHand: seq<Block>)
      reads this, dataBuffer, dataBuffer.buffer
    {
      && dataBuffer.Valid()
      && View().Faithful()
      && Flags()
      && stream == consumed + inHand + (orderedRecvQueue + incoming)
      && AllWellFormed(stream)
    }

    ghost predicate Valid()
      reads this, dataBuffer, dataBuffer.buffer
    {
      Holding([])
    }

    constructor (stream: seq<Block>, expires: bool)
      requires AllWellFormed(stream)
      ensures Valid() && fresh(dataBuffer) && fresh(dataBuffer.buffer)
      ensures this.stream == stream && View() == Reading([], [], []) && this.expires == expires
    {
      dataBuffer := new ByteRingBuffer(MAX_SIZE);
      orderedRecvQueue, incoming, closed, readClosed, writeClosed := [], stream, false, false, false;
      this.expires := expires;
      this.stream, consumed, returned := stream, [], [];
    }

    /** One select over the queue: the producer may push first, readCtx may be done when the select has that arm,
        and a select without a default arm waits until an arm is ready. */
    method Select(doneArm: bool, defaultArm: bool) returns (arm: Arm)
      requires Valid()
      requires doneArm || defaultArm
      modifies this`orderedRecvQueue, this`incoming
      ensures arm.Got? ==> Holding([arm.blk])
      ensures !arm.Got? ==> Valid()
      ensures arm == Default ==> defaultArm && orderedRecvQueue == []
      ensures arm == Done ==> doneArm && (expires || (!defaultArm && orderedRecvQueue + incoming == []))
    {
      var pushes: nat, done: bool :|
        && pushes <= |incoming|
        && (done ==> doneArm && (expires || (!defaultArm && orderedRecvQueue + incoming == [])))
        && (orderedRecvQueue + incoming[..pushes] != [] || defaultArm || done);
      PushKeeps(orderedRecvQueue, incoming, pushes);
      orderedRecvQueue, incoming := orderedRecvQueue + incoming[..pushes], incoming[pushes..];
      if done {
        return Done;
      } else if orderedRecvQueue == [] {
        return Default;
      }
      arm := Got(orderedRecvQueue[0]);
      PopKeeps(consumed, orderedRecvQueue, incoming);
      orderedRecvQueue := orderedRecvQueue[1..];
    }

    /** Copies held-over bytes to b[readN..]. */
    method Unstage(b: array<Byte>, readN: nat, ghost base: seq<Byte>) returns (readN': nat)
      requires dataBuffer.Valid() && View().Faithful()
      requires readN <= b.Length && b != dataBuffer.buffer
      requires returned == base + b[..readN]
      modifies this`returned, dataBuffer`head, b
      ensures dataBuffer.Valid() && View().Faithful()
      ensures readN <= readN' <= b.Length && returned == base + b[..readN']
      ensures forall i :: readN' <= i < b.Length ==> b[i] == old(b[i])
      ensures readN' == b.Length || dataBuffer.Contents() == []
      ensures readN' == readN + Min(b.Length - readN, |old(dataBuffer.Contents())|)
    {
      ghost var staged, before := dataBuffer.Contents(), b[..readN];
      var n := dataBuffer.Read(b, readN);
      readN' := readN + n;
      MoveKeeps(base, before, staged, n);
      returned := returned + staged[..n];
    }

    /** Copies a data block to b[readN..], or stages it and copies what fits. The staging buffer must be empty:
        OverWrite would discard its bytes. */
    method CopyBlock(data: seq<Byte>, readN: nat, b: array<Byte>, ghost base: seq<Byte>) returns (readN': nat)
      requires dataBuffer.Valid() && dataBuffer.Contents() == []
      requires Payloads(consumed) == returned + data
      requires readN <= b.Length && b != dataBuffer.buffer
      requires returned == base + b[..readN]
      modifies this`returned, dataBuffer, dataBuffer.buffer, b
      ensures dataBuffer.Valid() && View().Faithful()
      ensures dataBuffer.buffer == old(dataBuffer.buffer) || fresh(dataBuffer.buffer)
      ensures readN <= readN' <= b.Length && returned == base + b[..readN']
      ensures forall i :: readN' <= i < b.Length ==> b[i] == old(b[i])
      ensures readN' == b.Length || dataBuffer.Contents() == []
    {
      if b.Length - readN < |data| {
        dataBuffer.OverWrite(data);
        readN' := Unstage(b, readN, base);
      } else {
        ghost var before := b[..readN];
        forall i | 0 <= i < |data| {
          b[readN + i] := data[i];
        }
        returned := returned + data;
        readN' := readN + |data|;
        assert b[..readN'] == before + data;
      }
    }

    method Shut(how: Byte) returns (eof: bool)
      modifies this`closed, this`readClosed, this`writeClosed
      ensures closed == (old(closed) || how == SHUTDOWN_BOTH)
      ensures readClosed == (old(readClosed) || how == SHUTDOWN_WRITE)
      ensures writeClosed == (old(writeClosed) || how == SHUTDOWN_READ)
      ensures eof <==> how in {SHUTDOWN_BOTH, SHUTDOWN_WRITE}
    {
      eof := false;
      if how == SHUTDOWN_BOTH {
        closed := true;
        eof := true;
      } else if how == SHUTDOWN_WRITE {
        readClosed := true;
        eof := true;
      } else if how == SHUTDOWN_READ {
        writeClosed := true;
      }
    }

    /** Handles one block. */
    method ReadBlock(blk: Block, readN: nat, b: array<Byte>, ghost base: seq<Byte>) returns (readN': nat, eof: bool)
      requires Holding([blk]) && dataBuffer.Contents() == []
      requires readN <= b.Length && b != dataBuffer.buffer
      requires returned == base + b[..readN]
      modifies this`closed, this`readClosed, this`writeClosed, this`consumed, this`returned
      modifies dataBuffer, dataBuffer.buffer, b
      ensures Valid() && consumed == old(consumed) + [blk]
      ensures dataBuffer.buffer == old(dataBuffer.buffer) || fresh(dataBuffer.buffer)
      ensures readN <= readN' <= b.Length && returned == base + b[..readN']
      ensures forall i :: readN' <= i < b.Length ==> b[i] == old(b[i])
      ensures readN' == b.Length || dataBuffer.Contents() == []
      ensures eof <==> blk.EndsStream()
      ensures eof ==> dataBuffer.Contents() == [] && readN' == readN
      ensures old(closed || readClosed) ==> closed || readClosed
    {
      assert blk.WellFormed() by {
        assert stream[|consumed|] == blk;
      }
      PayloadsSnoc(consumed, blk);
      ShutsSnoc(consumed, blk, SHUTDOWN_BOTH);
      ShutsSnoc(consumed, blk, SHUTDOWN_WRITE);
      ShutsSnoc(consumed, blk, SHUTDOWN_READ);
      consumed := consumed + [blk];
      assert consumed + [] == consumed;
      readN', eof := readN, false;
      if blk.kind == TYPE_DISCONNECT {
        eof := Shut(blk.data[0]);
      } else if blk.kind == TYPE_DATA {
        readN' := CopyBlock(blk.data, readN, b, base);
      }
    }

    /** The loop for a closed connection: takes everything that is left. */
    method ReadRemaining(from: nat, b: array<Byte>, ghost base: seq<Byte>) returns (n: nat, eof: bool)
      requires Valid() && (closed || readClosed)
      requires dataBuffer.Contents() == [] && b != dataBuffer.buffer
      requires from <= b.Length && returned == base + b[..from]
      modifies this, dataBuffer, dataBuffer.buffer, b
      ensures Valid() && old(consumed) <= consumed
      ensures dataBuffer.buffer == old(dataBuffer.buffer) || fresh(dataBuffer.buffer)
      ensures from <= n <= b.Length && returned == base + b[..n]
      ensures forall i :: n <= i < b.Length ==> b[i] == old(b[i])
      ensures eof ==> n == 0 && EndReached()
      ensures n < b.Length ==> orderedRecvQueue == [] && dataBuffer.Contents() == [] && (eof <==> n == 0)
      ensures from == 0 && old(orderedRecvQueue + incoming) == [] ==> eof
    {
      n, eof := from, false;
      while true
        invariant Valid() && (closed || readClosed) && old(consumed) <= consumed
        invariant old(orderedRecvQueue + incoming) == [] ==> n == from && orderedRecvQueue + incoming == []
        invariant dataBuffer.Contents() == [] && b != dataBuffer.buffer
        invariant dataBuffer.buffer == old(dataBuffer.buffer) || fresh(dataBuffer.buffer)
        invariant from <= n <= b.Length && returned == base + b[..n]
        invariant forall i :: n <= i < b.Length ==> b[i] == old(b[i])
        decreases |stream| - |consumed|
      {
        var arm := Select(false, true);
        if arm == Default {
          eof := n == 0;
          return;
        }
        var ended;
        n, ended := ReadBlock(arm.blk, n, b, base);
        if n == b.Length {
          return;
        }
      }
    }

    /** The loop that fills the rest of b with whatever is queued. */
    method ReadMore(from: nat, b: array<Byte>, ghost base: seq<Byte>) returns (n: nat, expired: bool)
      requires Valid()
      requires dataBuffer.Contents() == [] && b != dataBuffer.buffer
      requires from <= b.Length && returned == base + b[..from]
      modifies this, dataBuffer, dataBuffer.buffer, b
      ensures Valid() && old(consumed) <= consumed
      ensures dataBuffer.buffer == old(dataBuffer.buffer) || fresh(dataBuffer.buffer)
      ensures from <= n <= b.Length && returned == base + b[..n]
      ensures forall i :: n <= i < b.Length ==> b[i] == old(b[i])
      ensures n < b.Length ==> dataBuffer.Contents() == []
      ensures n < b.Length && !expired ==>
                orderedRecvQueue == [] || (|consumed| > |old(consumed)| && consumed[|consumed| - 1].EndsStream())
      ensures expired ==> expires
    {
      n, expired := from, false;
      while true
        invariant Valid() && old(consumed) <= consumed
        invariant dataBuffer.Contents() == [] && b != dataBuffer.buffer
        invariant dataBuffer.buffer == old(dataBuffer.buffer) || fresh(dataBuffer.buffer)
        invariant from <= n <= b.Length && returned == base + b[..n]
        invariant forall i :: n <= i < b.Length ==> b[i] == old(b[i])
        decreases |stream| - |consumed|
      {
        var arm := Select(true, true);
        if arm != Default && arm != Done {
          var ended;
          n, ended := ReadBlock(arm.blk, n, b, base);
          if ended || n == b.Length {
            return;
          }
        } else {
          expired := arm == Done;
          return;
        }
      }
    }

    /** Waits for the first block. */
    method ReadFirst(b: array<Byte>, ghost base: seq<Byte>) returns (n: nat, eof: bool, expired: bool, stop: bool)
      requires Valid()
      requires dataBuffer.Contents() == [] && b != dataBuffer.buffer
      requires returned == base
      modifies this, dataBuffer, dataBuffer.buffer, b
      ensures Valid() && old(consumed) <= consumed
      ensures dataBuffer.buffer == old(dataBuffer.buffer) || fresh(dataBuffer.buffer)
      ensures n <= b.Length && returned == base + b[..n]
      ensures forall i :: n <= i < b.Length ==> b[i] == old(b[i])
      ensures eof ==> n == 0 && stop
      ensures eof && !expired ==> EndReached()
      ensures n < b.Length ==> dataBuffer.Contents() == []
      ensures !stop ==> dataBuffer.Contents() == []
      ensures if expired then eof && consumed == old(consumed) else |consumed| == |old(consumed)| + 1
      ensures !expired ==> (eof <==> consumed[|old(consumed)|].EndsStream())
      ensures !expired ==> (stop <==> eof || n == b.Length)
      ensures expired ==> expires || orderedRecvQueue + incoming == []
    {
      n, eof, expired, stop := 0, false, false, true;
      var arm := Select(true, false);
      if arm == Done {
        eof, expired := true, true;
        return;
      }
      var ended;
      n, ended := ReadBlock(arm.blk, 0, b, base);
      stop := ended || n == b.Length;
      eof := ended && n == 0;
      if ended {
        assert Shuts(consumed, arm.blk.data[0]);
      }
    }

    /** Serves what is staged. */
    method ReadStaged(b: array<Byte>) returns (n: nat)
      requires Valid() && b != dataBuffer.buffer
      modifies this`returned, dataBuffer`head, b
      ensures Valid() && n == Min(b.Length, |old(dataBuffer.Contents())|)
      ensures n == b.Length || dataBuffer.Contents() == []
      ensures returned == old(returned) + b[..n]
      ensures forall i :: n <= i < b.Length ==> b[i] == old(b[i])
    {
      hide Payloads, Shuts, AllWellFormed;
      assert b[..0] == [] && returned + [] == returned;
      ghost var base := returned;
      n := Unstage(b, 0, base);
    }

    /** The three phases of Read. */
    method ReadPhases(b: array<Byte>) returns (n: nat, eof: bool, expired: bool)
      requires Valid() && b != dataBuffer.buffer
      modifies this, dataBuffer, dataBuffer.buffer, b
      ensures Valid()
      ensures dataBuffer.buffer == old(dataBuffer.buffer) || fresh(dataBuffer.buffer)
      ensures old(consumed) <= consumed
      ensures n <= b.Length && returned == old(returned) + b[..n]
      ensures forall i :: n <= i < b.Length ==> b[i] == old(b[i])
      ensures n >= Min(b.Length, |old(dataBuffer.Contents())|)
      ensures eof ==> n == 0
      ensures eof && !expired ==> EndReached()
      ensures n < b.Length ==> dataBuffer.Contents() == []
      ensures b.Length > 0 && n == 0 && !eof && !expired ==> |consumed| > |old(consumed)|
      ensures n < b.Length && !eof && !expired ==>
                orderedRecvQueue == [] || (|consumed| > |old(consumed)| && consumed[|consumed| - 1].EndsStream())
      ensures Exhausted(old(closed || readClosed), old(dataBuffer.Contents()), old(orderedRecvQueue + incoming)) ==> eof
      ensures EndsFirst(old(closed || readClosed), old(dataBuffer.Contents()), consumed[|old(consumed)|..]) ==> eof
      ensures expired ==> expires || (n == 0 && orderedRecvQueue + incoming == [])
    {
      hide Payloads, EndReached, Flags, AllWellFormed;
      ghost var base := returned;
      n, eof, expired := 0, false, false;
      assert base + b[..0] == base;
      if !dataBuffer.Empty() {
        n := ReadStaged(b);
        if n == b.Length {
          return;
        }
      }
      if closed || readClosed {
        n, eof := ReadRemaining(n, b, base);
        return;
      }
      if n == 0 {
        var stop;
        n, eof, expired, stop := ReadFirst(b, base);
        if stop {
          return;
        }
      }
      n, expired := ReadMore(n, b, base);
    }

    /** Nothing is left of a connection that has ended. */
    ghost predicate Exhausted(ended: bool, staged: seq<Byte>, queued: seq<Block>) {
      ended && staged == [] && queued == []
    }

    /** The first block taken off an open connection ends the stream. */
    ghost predicate EndsFirst(ended: bool, staged: seq<Byte>, taken: seq<Block>) {
      !ended && staged == [] && taken != [] && taken[0].EndsStream()
    }

    /** The connection ended and everything queued up to its end has been handed to the caller. */
    ghost predicate EndReached()
      requires dataBuffer.Valid()
      reads this, dataBuffer, dataBuffer.buffer
    {
      && (Shuts(consumed, SHUTDOWN_BOTH) || Shuts(consumed, SHUTDOWN_WRITE))
      && dataBuffer.Contents() == []
      && returned == Payloads(consumed)
    }

    /** Reads into b. Between the queue and the caller nothing is lost, repeated or reordered, whatever the size of
        b; it gives what it can; end of stream is reported whenever the connection has ended and there is nothing to
        give, and without the deadline only when every byte queued before the shutdown has been returned. */
    method Read(b: array<Byte>) returns (n: nat, eof: bool, expired: bool)
      requires Valid() && b != dataBuffer.buffer
      modifies this, dataBuffer, dataBuffer.buffer, b
      ensures Valid()
      ensures dataBuffer.buffer == old(dataBuffer.buffer) || fresh(dataBuffer.buffer)
      ensures old(consumed) <= consumed
      ensures n <= b.Length && returned == old(returned) + b[..n]
      ensures forall i :: n <= i < b.Length ==> b[i] == old(b[i])
      ensures var taken := consumed[|old(consumed)|..];
              && n <= |old(View()).staging + Payloads(taken)|
              && View() == Serve(old(View()), taken, n)
      // staged bytes come first, and a buffer that is not full leaves none behind
      ensures n >= Min(b.Length, |old(dataBuffer.Contents())|)
      ensures n < b.Length ==> dataBuffer.Contents() == []
      // an empty result is either the end, or what blocks without bytes amount to
      ensures b.Length > 0 && n == 0 && !eof && !expired ==>
                |consumed| > |old(consumed)| && Payloads(consumed[|old(consumed)|..]) == []
      // a buffer that is not full means that the queue was empty, or that the stream has just ended
      ensures n < b.Length && !eof && !expired ==>
                orderedRecvQueue == [] || (|consumed| > |old(consumed)| && consumed[|consumed| - 1].EndsStream())
      // the end of the stream, both ways
      ensures eof ==> n == 0
      ensures eof && !expired ==> EndReached()
      ensures Exhausted(old(closed || readClosed), old(dataBuffer.Contents()), old(orderedRecvQueue + incoming)) ==> eof
      ensures EndsFirst(old(closed || readClosed), old(dataBuffer.Contents()), consumed[|old(consumed)|..]) ==> eof
      // the deadline
      ensures expired ==> expires || (n == 0 && orderedRecvQueue + incoming == [])
    {
      hide Payloads, Serve, Flags, EndReached;
      ghost var before := View();
      n, eof, expired := ReadPhases(b);
      FaithfulServes(before, View(), consumed[|before.consumed|..], b[..n]);
      NothingServed(before, consumed[|before.consumed|..]);
    }

    /** Reading until the end, or the deadline, with a buffer of any size: without a deadline everything comes, in
        order, up to the end of the connection or of the stream; the whole stream, if no block before its last ends
        it. */
    method ReadAll(size: nat) returns (result: seq<Byte>)
      requires Valid() && returned == [] && size > 0
      modifies this, dataBuffer, dataBuffer.buffer
      ensures Valid() && result == returned
      ensures !expires ==> returned == Payloads(consumed) && (consumed == stream || EndReached())
      ensures !expires && (forall i :: 0 <= i < |stream| - 1 ==> !stream[i].EndsStream()) ==>
                result == Payloads(stream)
    {
      result := [];
      var eof, expired := false, false;
      while !eof && !expired
        invariant Valid() && result == returned
        invariant dataBuffer.buffer == old(dataBuffer.buffer) || fresh(dataBuffer.buffer)
        invariant !expires && expired ==> orderedRecvQueue + incoming == [] && dataBuffer.Contents() == []
        invariant eof && !expired ==> EndReached()
        decreases !eof && !expired, |stream| - |consumed|, |dataBuffer.Contents()|
      {
        var b := new Byte[size];
        var n;
        ghost var before := View();
        n, eof, expired := Read(b);
        result := result + b[..n];
        ServeProgress(before, consumed[|before.consumed|..], n);
      }
      if eof && !expired {
        EndIsLast(consumed, stream);
      }
    }

    /** Any sequence of Reads, with buffers of any sizes, returns a prefix of the bytes in the stream. */
    method ReadMany(sizes: seq<nat>) returns (results: seq<seq<Byte>>)
      requires Valid() && returned == []
      modifies this, dataBuffer, dataBuffer.buffer
      ensures Valid() && |results| == |sizes|
      ensures Flatten(results) == returned <= Payloads(stream)
    {
      results := [];
      for i := 0 to |sizes|
        invariant Valid() && |results| == i
        invariant dataBuffer.buffer == old(dataBuffer.buffer) || fresh(dataBuffer.buffer)
        invariant Flatten(results) == returned
      {
        var b := new Byte[sizes[i]];
        var n, eof, expired := Read(b);
        FlattenSnoc(results, b[..n]);
        results := results + [b[..n]];
      }
      PayloadsPrefix(consumed, stream);
    }
  }
}
