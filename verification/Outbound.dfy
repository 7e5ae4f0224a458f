/** connection/outbound_connection.go: the relay from the ordered queue to the real socket. */
module Outbound {
  import opened Bytes
  import opened Blocks

  /** What the relay has taken off its queue, what the socket accepted, and whether it still accepts bytes. */
  datatype Socket = Socket(consumed: seq<Block>, accepted: seq<Byte>, writable: bool)
  {
    ghost predicate Prefix() {
      && accepted <= Payloads(consumed)
      && (writable ==> accepted == Payloads(consumed))
    }
  }

  /** One block through SendRelay. A write takes the first n bytes; it fails when it is short or told to. */
  function Deliver(s: Socket, b: Block, n: nat, fails: bool): Socket
    requires b.WellFormed()
    requires n <= |b.data|
  {
    var taken := s.consumed + [b];
    if b.kind == TYPE_DATA && s.writable then
      Socket(taken, s.accepted + b.data[..n], n == |b.data| && !fails)
    else if b.kind == TYPE_DISCONNECT && b.data[0] != SHUTDOWN_READ then
      Socket(taken, s.accepted, false)
    else
      Socket(taken, s.accepted, s.writable)
  }

  lemma DeliverPrefix(s: Socket, b: Block, n: nat, fails: bool)
    requires s.Prefix() && b.WellFormed() && n <= |b.data|
    ensures Deliver(s, b, n, fails).Prefix()
  {
    PayloadsSnoc(s.consumed, b);
    if b.kind == TYPE_DATA && s.writable {
      SplitAt(b.data, n);
      Assoc(s.accepted, b.data[..n], b.data[n..]);
    }
  }

  // ---------------------------------------------------------------- whole histories

  /** What happens to a dialled connection: a block goes through SendRelay, whose write takes n bytes and may report an
      error; or the connection is closed from elsewhere. */
  datatype Event = Took(b: Block, n: nat, fails: bool) | Closed
  {
    predicate Possible() {
      Took? ==> b.WellFormed() && n <= |b.data|
    }

    /** A data write that was short or reported an error. */
    predicate Failed() {
      Took? && b.kind == TYPE_DATA && (n < |b.data| || fails)
    }

    /** After this the socket takes no more bytes. */
    predicate EndsWriting()
      requires Possible()
    {
      Closed? || Failed() || (Took? && b.kind == TYPE_DISCONNECT && b.data[0] != SHUTDOWN_READ)
    }

    /** This cancels the connection's context. */
    predicate Cancels()
      requires Possible()
    {
      Closed? || Failed() || (Took? && b.kind == TYPE_DISCONNECT && b.data[0] !in {SHUTDOWN_READ, SHUTDOWN_WRITE})
    }

    /** The bytes the socket took. */
    function Part(): seq<Byte>
      requires Possible()
    {
      if Took? && b.kind == TYPE_DATA then b.data[..n] else []
    }
  }

  predicate AllPossible(log: seq<Event>) {
    forall i :: 0 <= i < |log| ==> log[i].Possible()
  }

  function Step(s: Socket, e: Event): Socket
    requires e.Possible()
  {
    if e.Closed? then s.(writable := false) else Deliver(s, e.b, e.n, e.fails)
  }

  function After(log: seq<Event>): Socket
    requires AllPossible(log)
  {
    if log == [] then Socket([], [], true) else Step(After(log[..|log| - 1]), log[|log| - 1])
  }

  function BlocksOf(log: seq<Event>): seq<Block> {
    if log == [] then []
    else BlocksOf(log[..|log| - 1]) + if log[|log| - 1].Took? then [log[|log| - 1].b] else []
  }

  ghost predicate Open(log: seq<Event>)
    requires AllPossible(log)
  {
    forall i :: 0 <= i < |log| ==> !log[i].EndsWriting()
  }

  /** The first event that ends the writing. */
  ghost predicate FirstEnd(log: seq<Event>, k: nat)
    requires AllPossible(log)
  {
    k < |log| && log[k].EndsWriting() && Open(log[..k])
  }

  lemma {:induction false} OpenOrEnded(log: seq<Event>)
    requires AllPossible(log)
    ensures Open(log) || exists k: nat :: FirstEnd(log, k)
  {
    if log != [] && !Open(log) {
      var m := |log| - 1;
      OpenOrEnded(log[..m]);
      if Open(log[..m]) {
        assert FirstEnd(log, m);
      } else {
        var k: nat :| FirstEnd(log[..m], k);
        assert log[..m][..k] == log[..k];
        assert FirstEnd(log, k);
      }
    }
  }

  lemma OpenSnoc(log: seq<Event>)
    requires log != [] && AllPossible(log)
    ensures Open(log) <==> Open(log[..|log| - 1]) && !log[|log| - 1].EndsWriting()
  {
  }

  lemma StepOpen(s: Socket, e: Event)
    requires e.Possible()
    ensures var t := Step(s, e);
            && t.consumed == s.consumed + (if e.Took? then [e.b] else [])
            && (t.writable <==> s.writable && !e.EndsWriting())
            && t.accepted == (if s.writable then s.accepted + e.Part() else s.accepted)
  {
    assert s.consumed + [] == s.consumed && s.accepted + [] == s.accepted;
  }

  lemma {:induction false} SocketOpen(log: seq<Event>)
    requires AllPossible(log)
    ensures var s := After(log);
            && s.consumed == BlocksOf(log) && (s.writable <==> Open(log))
            && (Open(log) ==> s.accepted == Payloads(BlocksOf(log)))
  {
    if log != [] {
      var init, e := log[..|log| - 1], log[|log| - 1];
      assert After(log) == Step(After(init), e);
      OpenSnoc(log);
      StepOpen(After(init), e);
      PayloadsNext(BlocksOf(init), e);
      hide After, Step, Open, Payloads, AllPossible;
      SocketOpen(init);
    }
  }

  lemma {:induction false} SocketEnded(log: seq<Event>, k: nat)
    requires AllPossible(log) && FirstEnd(log, k)
    ensures After(log).accepted == Payloads(BlocksOf(log[..k])) + log[k].Part()
  {
    var m := |log| - 1;
    var init, e := log[..m], log[m];
    assert After(log) == Step(After(init), e);
    StepOpen(After(init), e);
    SocketOpen(init);
    if k < m {
      assert init[..k] == log[..k];
      assert init[k].EndsWriting();
      hide After, Step, BlocksOf, Payloads;
      SocketEnded(init, k);
    }
  }

  /** In every history the socket is writable exactly while no write failed and no shutdown of writing was consumed. So
      long it has accepted every payload; and after that, the payloads before the event that ended it and the part which
      that write took. */
  lemma {:induction false} SocketExact(log: seq<Event>)
    requires AllPossible(log)
    ensures var s := After(log);
            && s.consumed == BlocksOf(log)
            && (s.writable <==> Open(log))
            && (Open(log) ==> s.accepted == Payloads(BlocksOf(log)))
            && (forall k: nat :: FirstEnd(log, k) ==> s.accepted == Payloads(BlocksOf(log[..k])) + log[k].Part())
  {
    hide After, Open, BlocksOf, Payloads;
    SocketOpen(log);
    forall k: nat | FirstEnd(log, k) ensures After(log).accepted == Payloads(BlocksOf(log[..k])) + log[k].Part() {
      SocketEnded(log, k);
    }
  }

  lemma PayloadsNext(bs: seq<Block>, e: Event)
    requires e.Possible()
    ensures Payloads(bs + if e.Took? then [e.b] else []) ==
            Payloads(bs) + if e.Took? && e.b.kind == TYPE_DATA then e.b.data else []
    ensures !e.EndsWriting() && e.Took? && e.b.kind == TYPE_DATA ==> e.Part() == e.b.data
  {
    if e.Took? {
      PayloadsSnoc(bs, e.b);
    } else {
      assert bs + [] == bs;
    }
  }

  ghost predicate AnyCancels(log: seq<Event>)
    requires AllPossible(log)
  {
    exists i :: 0 <= i < |log| && log[i].Cancels()
  }

  /** The program's closed flag is set by whoever closes first: a failed write, or somebody else. */
  ghost predicate AnyCloses(log: seq<Event>) {
    exists i :: 0 <= i < |log| && (log[i].Closed? || log[i].Failed())
  }

  /** What the others do before a turn of SendRelay: RecvRelay comes to its end, or the connection is taken out of its
      pool. leaves says which arm the relay takes if its context is done and a block is there. */
  datatype Meanwhile = Meanwhile(recvRelayEnds: bool, removed: bool, leaves: bool)

  predicate Removed(others: seq<Meanwhile>) {
    exists i :: 0 <= i < |others| && others[i].removed
  }

  predicate RelayEnds(others: seq<Meanwhile>) {
    exists i :: 0 <= i < |others| && others[i].recvRelayEnds
  }

  /** What leaves the socket writable leaves the context alone. */
  lemma OpenGoesOn(log: seq<Event>)
    requires AllPossible(log) && Open(log)
    ensures !AnyCancels(log)
  {
  }

  /** An outbound connection. Once it is dialled, RecvRelay runs beside SendRelay and may close it at any time. The real
      socket takes up to capacity bytes without complaint. */
  class OutboundConnection {
    const capacity: nat
    var dialled: bool
    var closed: bool
    var cancelled: bool
    var writable: bool
    var accepted: seq<Byte>
    var disconnectsSent: nat
    ghost var log: seq<Event>

    /** The socket, the context and the number of disconnects sent are what the history makes them. */
    ghost predicate Valid()
      reads this
    {
      && dialled && AllPossible(log)
      && After(log) == Socket(BlocksOf(log), accepted, writable)
      && (cancelled <==> AnyCancels(log))
      && (closed <==> AnyCloses(log))
      && disconnectsSent == (if closed then 1 else 0)
    }

    /** No connection yet: the flag starts out set, and nothing has been sent to anybody. */
    ghost predicate New()
      reads this
    {
      !dialled && closed && !cancelled && disconnectsSent == 0 && !writable && accepted == [] && log == []
    }

    constructor (capacity: nat)
      ensures New() && this.capacity == capacity
    {
      this.capacity := capacity;
      dialled, closed, cancelled, writable := false, true, false, false;
      accepted, disconnectsSent, log := [], 0, [];
    }

    /** connect, with the outcome of the dial. A connection that has been dialled is left alone. */
    method Connect(reachable: bool)
      requires New() || Valid()
      modifies this
      ensures old(Valid()) ==> unchanged(this)
      ensures old(New()) && reachable ==> Valid() && !closed && writable && log == []
      ensures old(New()) && !reachable ==> !dialled && closed && disconnectsSent == 1 && accepted == []
    {
      if !closed || dialled {
        return;
      }
      if reachable {
        dialled, writable := true, true;
        closed := !closed;
      } else {
        disconnectsSent := disconnectsSent + 1;
      }
    }

    /** A whole life: reachable or not, the far end is told exactly once that the connection is over, and the socket
        accepts a prefix of the bytes in block order. */
    method Live(reachable: bool, stream: seq<Block>, others: seq<Meanwhile>)
      requires New() && AllWellFormed(stream) && |others| == |stream| + 1
      modifies this
      ensures closed && disconnectsSent == 1
      ensures if reachable then Valid() && BlocksOf(log) <= stream && log != [] else accepted == []
      ensures reachable && !Removed(others) && Open(log[..|log| - 1]) ==> accepted == Payloads(stream)
      ensures accepted <= Payloads(stream)
    {
      Connect(reachable);
      if dialled {
        SendRelay(stream, others);
        if !Removed(others) && Open(log[..|log| - 1]) {
          OpenGoesOn(log[..|log| - 1]);
        }
      }
    }

    method CloseThenCancel()
      modifies this`writable, this`cancelled
      ensures !writable && cancelled
    {
      writable := false;
      cancelled := true;
    }

    method CloseThenCancelWithOnceSend()
      requires disconnectsSent == (if closed then 1 else 0)
      modifies this`writable, this`cancelled, this`closed, this`disconnectsSent
      ensures !writable && cancelled && closed && disconnectsSent == 1
    {
      CloseThenCancel();
      if !closed {
        closed := true;
        disconnectsSent := disconnectsSent + 1;
      }
    }

    /** The same from outside SendRelay. */
    method Close()
      requires Valid()
      modifies this
      ensures Valid() && log == old(log) + [Closed]
    {
      hide After, AnyCancels, AnyCloses, AllPossible, BlocksOf;
      CloseThenCancelWithOnceSend();
      LogSnoc(log, Closed);
      log := log + [Closed];
    }

    /** A socket write: takes some of the bytes, all of them unless it fails; and it fails only beyond its capacity. */
    method Write(data: seq<Byte>) returns (n: nat, fails: bool)
      modifies this`accepted
      ensures n <= |data| && (n < |data| ==> fails)
      ensures !writable ==> n == 0 && fails && accepted == old(accepted)
      ensures writable ==> accepted == old(accepted) + data[..n]
      ensures writable ==> (fails <==> |old(accepted)| + |data| > capacity)
    {
      if !writable {
        return 0, true;
      }
      fails := |accepted| + |data| > capacity;
      n := |data|;
      if fails {
        n :| 0 <= n <= |data|;
      }
      accepted := accepted + data[..n];
    }

    /** The receive arm of SendRelay. */
    method OnBlock(b: Block) returns (n: nat, fails: bool)
      requires Valid() && b.WellFormed()
      modifies this
      ensures Valid() && n <= |b.data| && log == old(log) + [Took(b, n, fails)]
      ensures b.kind == TYPE_DATA ==> (fails <==> !old(writable) || |old(accepted)| + |b.data| > capacity)
    {
      hide After, AnyCancels, AnyCloses, AllPossible, BlocksOf;
      n, fails := 0, false;
      if b.kind == TYPE_DATA {
        n, fails := Write(b.data);
        if fails {
          CloseThenCancelWithOnceSend();
        }
      } else if b.kind == TYPE_DISCONNECT {
        if b.data[0] == SHUTDOWN_WRITE {
          writable := false;
        } else if b.data[0] != SHUTDOWN_READ {
          CloseThenCancel();
        }
      }
      LogSnoc(log, Took(b, n, fails));
      log := log + [Took(b, n, fails)];
    }

    /** The relay over everything its queue will hold. However writes fail and whenever the connection is closed, its
        history takes the blocks in order, all of them unless the context is done, which takes a removal from the pool,
        RecvRelay's end or an event of the relay's own; and it ends by telling the far end once. */
    method SendRelay(stream: seq<Block>, others: seq<Meanwhile>)
      requires Valid() && log == [] && AllWellFormed(stream) && |others| == |stream| + 1
      modifies this
      ensures Valid() && BlocksOf(log) <= stream
      ensures accepted <= Payloads(stream)
      ensures closed && disconnectsSent == 1
      ensures log != [] && AllPossible(log) && log[|log| - 1].Closed?
      ensures BlocksOf(log) == stream || Removed(others) || AnyCancels(log[..|log| - 1])
      ensures Closed in log[..|log| - 1] ==> RelayEnds(others)
      ensures Open(log[..|log| - 1]) && BlocksOf(log) == stream ==> accepted == Payloads(stream)
    {
      hide Valid, After, BlocksOf, Open, Payloads, AnyCancels, AnyCloses;
      NoBlocks(log);
      var stopped := false;
      var i := 0;
      while true
        invariant Valid() && i <= |stream| && BlocksOf(log) == stream[..i]
        invariant (stopped ==> Removed(others)) && (Closed in log ==> RelayEnds(others))
        decreases |stream| - i
      {
        if others[i].recvRelayEnds {
          BlocksSnoc(log, Closed);
          Close();
        }
        stopped := stopped || others[i].removed;
        if (others[i].leaves && (stopped || cancelled)) || i == |stream| {
          CancelSays();
          ghost var before := log;
          BlocksSnoc(log, Closed);
          Close();
          assert log[..|log| - 1] == before;
          ClosedSays();
          AcceptedPrefix(log, stream);
          AllAccepted(before);
          assert log == before + [Closed];
          return;
        }
        ghost var before := log;
        var n, fails := OnBlock(stream[i]);
        BlocksSnoc(before, Took(stream[i], n, fails));
        i := i + 1;
      }
    }

    lemma CancelSays()
      requires Valid()
      ensures AllPossible(log) && (cancelled <==> AnyCancels(log))
    {
    }

    lemma ClosedSays()
      requires Valid() && log != [] && log[|log| - 1].Closed?
      ensures closed && disconnectsSent == 1 && accepted == After(log).accepted && AllPossible(log)
    {
    }
  }

  lemma AllAccepted(log: seq<Event>)
    requires AllPossible(log)
    ensures AllPossible(log + [Closed])
    ensures Open(log) ==> After(log + [Closed]).accepted == Payloads(BlocksOf(log + [Closed]))
  {
    LogSnoc(log, Closed);
    SocketOpen(log);
    assert BlocksOf(log) + [] == BlocksOf(log);
  }

  lemma NoBlocks(log: seq<Event>)
    requires log == []
    ensures BlocksOf(log) == []
  {
  }

  lemma BlocksSnoc(log: seq<Event>, e: Event)
    ensures BlocksOf(log + [e]) == BlocksOf(log) + if e.Took? then [e.b] else []
  {
    assert (log + [e])[..|log|] == log;
  }

  lemma LogSnoc(log: seq<Event>, e: Event)
    requires AllPossible(log) && e.Possible()
    ensures AllPossible(log + [e]) && After(log + [e]) == Step(After(log), e)
    ensures BlocksOf(log + [e]) == BlocksOf(log) + if e.Took? then [e.b] else []
    ensures AnyCancels(log + [e]) <==> AnyCancels(log) || e.Cancels()
    ensures AnyCloses(log + [e]) <==> AnyCloses(log) || e.Closed? || e.Failed()
  {
    assert (log + [e])[..|log|] == log;
    hide Step, Event.Possible, Event.Cancels, Event.Failed, AnyCancels, AnyCloses;
    CancelsSnoc(log, e);
    ClosesSnoc(log, e);
  }

  lemma CancelsSnoc(log: seq<Event>, e: Event)
    requires AllPossible(log) && e.Possible()
    ensures AllPossible(log + [e]) && (AnyCancels(log + [e]) <==> AnyCancels(log) || e.Cancels())
  {
    hide Event.Possible, Event.Cancels;
    var all := log + [e];
    assert all[|log|] == e;
    if i :| 0 <= i < |log| && log[i].Cancels() {
      assert all[i].Cancels();
    }
  }

  lemma ClosesSnoc(log: seq<Event>, e: Event)
    ensures AnyCloses(log + [e]) <==> AnyCloses(log) || e.Closed? || e.Failed()
  {
    hide Event.Failed;
    var all := log + [e];
    assert all[|log|] == e;
    if i :| 0 <= i < |log| && (log[i].Closed? || log[i].Failed()) {
      assert all[i].Closed? || all[i].Failed();
    }
  }

  lemma AcceptedPrefix(log: seq<Event>, stream: seq<Block>)
    requires AllPossible(log) && BlocksOf(log) <= stream
    ensures After(log).accepted <= Payloads(stream)
  {
    AfterPrefix(log);
    SocketExact(log);
    PayloadsPrefix(BlocksOf(log), stream);
  }

  lemma {:induction false} AfterPrefix(log: seq<Event>)
    requires AllPossible(log)
    ensures After(log).Prefix()
  {
    if log != [] {
      var e := log[|log| - 1];
      AfterPrefix(log[..|log| - 1]);
      if e.Took? {
        DeliverPrefix(After(log[..|log| - 1]), e.b, e.n, e.fails);
      }
    }
  }
}
