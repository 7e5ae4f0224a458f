/** A run in which a connection ID gets a second sending object, and a reader returns bytes of both. */
module Restarts {
  import opened Bytes
  import opened Blocks
  import opened Records
  import opened EndToEnd
  import Inbound
  import Reorder
  import Scheduler
  import Fates
  import opened Progress

  // ---------------------------------------------------------------- one block through a new tunnel

  lemma FreshSend(c: Cipher, salt: seq<Byte>, b: Block)
    requires c.Lawful() && |salt| == c.saltSize && b.WellFormed()
    ensures var t := Scheduler.Put(c, Scheduler.Fresh(salt).(hand := Some(b)), b, 0, true).(hand := None);
            Scheduler.Next(c, t, |t.wire|) == Parsed(b, |Pack(b)|)
  {
    var start := Scheduler.Fresh(salt).(hand := Some(b));
    Scheduler.FreshAligned(c, salt);
    hide Pack, Scheduler.Sealed, Scheduler.Ends, DecodeStream, Scheduler.Whole, Scheduler.Next, Cipher.Lawful;
    assert Scheduler.Aligned(c, start);
    Scheduler.PutAligned(c, start, b, 0, true);
    var t := Scheduler.Put(c, start, b, 0, true).(hand := None);
    assert Scheduler.Aligned(c, t) && t.sent == [b] && t.taken == 0;
    Scheduler.NextBlock(c, t, |t.wire|);
  }

  /** Nothing is queued but these blocks of one connection pool. */
  ghost predicate Queued(s: Scheduler.Net, pool: seq<Block>) {
    s.poolQueue == pool && s.sendQueue == []
  }

  lemma ToTunnel(c: Cipher, s: Scheduler.Net, b: Block) returns (t: Scheduler.Net)
    requires Queued(s, [b])
    ensures var k := |s.tunnels|;
            && t == Fates.Then(c, s, [Scheduler.Relay, Scheduler.Open(Fates.SomeSalt(c)), Scheduler.TakeNormal(k)])
            && t == s.(poolQueue := [], sendQueue := [],
                       tunnels := s.tunnels + [Scheduler.Fresh(Fates.SomeSalt(c)).(hand := Some(b))])
  {
    var salt, k := Fates.SomeSalt(c), |s.tunnels|;
    var s1 := Scheduler.Apply(c, s, Scheduler.Relay);
    assert s1 == s.(poolQueue := [], sendQueue := [b]);
    var s2 := Scheduler.Apply(c, s1, Scheduler.Open(salt));
    t := Scheduler.Apply(c, s2, Scheduler.TakeNormal(k));
    assert t.tunnels == s.tunnels + [Scheduler.Fresh(salt).(hand := Some(b))];
    hide Scheduler.Apply;
    var more := [Scheduler.Relay, Scheduler.Open(salt), Scheduler.TakeNormal(k)];
    assert more[1..] == [Scheduler.Open(salt), Scheduler.TakeNormal(k)] + [];
    Fates.ThenTwo(c, s1, Scheduler.Open(salt), Scheduler.TakeNormal(k), []);
  }

  /** A block that is alone on its way can be delivered next. */
  lemma DeliverNext(c: Cipher, s: Scheduler.Net, b: Block) returns (more: seq<Scheduler.Action>)
    requires c.Lawful() && Queued(s, [b]) && b.WellFormed() && !b.KeepAlive()
    ensures Fates.NoSubmit(more)
    ensures var t := Fates.Then(c, s, more);
            Queued(t, []) && t.delivered == s.delivered + [b]
  {
    var salt, k := Fates.SomeSalt(c), |s.tunnels|;
    FreshSend(c, salt, b);
    var s3 := ToTunnel(c, s, b);
    hide Pack, Scheduler.Put, Scheduler.Next, Cipher.Lawful;
    var s4 := Scheduler.Apply(c, s3, Scheduler.SendOk(k));
    var n := |s4.tunnels[k].wire|;
    var s5 := Scheduler.Apply(c, s4, Scheduler.Arrive(k, n));
    assert Queued(s5, []) && s5.delivered == s.delivered + [b];
    hide Scheduler.Apply;
    var first := [Scheduler.Relay, Scheduler.Open(salt), Scheduler.TakeNormal(k)];
    var rest := [Scheduler.SendOk(k), Scheduler.Arrive(k, n)];
    assert rest + [] == rest;
    Fates.ThenTwo(c, s3, Scheduler.SendOk(k), Scheduler.Arrive(k, n), []);
    more := first + rest;
    Fates.ThenAppend(c, s, first, rest);
  }

  // ---------------------------------------------------------------- one byte from end to end

  /** One reader with this ID, a sender with it, and nothing on its way. */
  ghost predicate Ready(s: State, c: U32) {
    && c in s.senders && s.senders[c].todo == []
    && Queued(s.net, []) && s.dispatched == |s.net.delivered|
    && |s.receivers| == 1 && s.receivers[0].conn == c && s.receivers[0].inbox == []
    && c in Live(s) && Live(s)[c] == 0
  }

  function ByteBlock(c: U32, issued: nat, d: Byte): Block {
    Block(TYPE_DATA, c, 0, issued % TWO_32, 1, [d])
  }

  /** A byte is written and cut into a block. */
  lemma {:induction false} WriteByte(cipher: Cipher, actions: seq<Action>, c: U32, d: Byte) returns (more: seq<Action>)
    requires Ready(Run(cipher, actions), c)
    ensures var s, t := Run(cipher, actions), Run(cipher, more);
            var x, b := s.senders[c], ByteBlock(c, |s.senders[c].issued|, d);
            && t.net == Scheduler.Apply(cipher, s.net, Scheduler.Submit(b)) && Queued(t.net, [b])
            && t == s.(net := t.net, senders := s.senders[c := Sender(x.issued + [b], [], x.written + [d])])
  {
    hide Run;
    var first := Step(cipher, actions, Write(c, [d]));
    more := Step(cipher, first, SendPiece(c, 0));
    var s := Run(cipher, actions);
    assert [d][..1] == [d] && [d][1..] == [];
    assert [] + [ByteBlock(c, |s.senders[c].issued|, d)] == [ByteBlock(c, |s.senders[c].issued|, d)];
  }

  /** The byte goes all the way to the relay of the reader. */
  lemma {:induction false} OneByte(cipher: Cipher, actions: seq<Action>, c: U32, d: Byte) returns (more: seq<Action>)
    requires cipher.Lawful() && Ready(Run(cipher, actions), c)
    ensures var s, t := Run(cipher, actions), Run(cipher, more);
            var x, y, b := s.senders[c], s.receivers[0], ByteBlock(c, |s.senders[c].issued|, d);
            && Ready(t, c) && t.retired == s.retired
            && t.senders[c] == Sender(x.issued + [b], [], x.written + [d])
            && t.receivers[0].order == Reorder.Receive(y.order, b) && t.receivers[0].sink == y.sink
  {
    hide Run, Cipher.Lawful, Reorder.Receive, Scheduler.Apply;
    var s := Run(cipher, actions);
    var b := ByteBlock(c, |s.senders[c].issued|, d);
    var written := WriteByte(cipher, actions, c, d);
    SubmitDelivers(cipher, s.net, b);
    var s1 := Run(cipher, written);
    var steps := DeliverNext(cipher, s1.net, b);
    var carried := Carry(cipher, written, steps);
    hide ByteBlock, Fates.Then;
    more := TakeIn(cipher, carried, c, b);
  }

  /** A delivered block is dispatched and ordered. */
  lemma {:induction false} TakeIn(cipher: Cipher, actions: seq<Action>, c: U32, b: Block) returns (more: seq<Action>)
    requires b.connectionID == c
    requires var s := Run(cipher, actions);
             && |s.receivers| == 1 && s.receivers[0].conn == c && s.receivers[0].inbox == []
             && c in Live(s) && Live(s)[c] == 0
             && |s.net.delivered| == s.dispatched + 1 && s.net.delivered[s.dispatched] == b
    ensures var s, t := Run(cipher, actions), Run(cipher, more); var y := s.receivers[0];
            t == s.(dispatched := s.dispatched + 1,
                    receivers := [y.(arrived := y.arrived + [b], order := Reorder.Receive(y.order, b))])
  {
    hide Run, Reorder.Receive;
    var s := Run(cipher, actions);
    var y := s.receivers[0];
    var dispatched := Step(cipher, actions, Dispatch(false));
    assert [] + [b] == [b] && [b][1..] == [];
    var t := Run(cipher, dispatched);
    assert t == s.(dispatched := s.dispatched + 1, receivers := [y.(inbox := [b])]);
    more := Step(cipher, dispatched, Order(0));
    assert Run(cipher, more).receivers == [y.(arrived := y.arrived + [b], order := Reorder.Receive(y.order, b))];
  }

  lemma SubmitDelivers(cipher: Cipher, s: Scheduler.Net, b: Block)
    ensures Scheduler.Apply(cipher, s, Scheduler.Submit(b)).delivered == s.delivered
  {
  }

  // ---------------------------------------------------------------- the run

  lemma Start(cipher: Cipher, c: U32) returns (actions: seq<Action>)
    ensures var s := Run(cipher, actions);
            && Ready(s, c) && s.retired == [] && s.senders[c] == Sender([], [], [])
            && s.receivers[0] == NewReceiver(c, ToReader(Inbound.Reading([], [], [])))
  {
    actions := Step(cipher, [], NewSender(c));
    actions := Step(cipher, actions, NewReader(c));
  }

  /** The relay keeps block 0 of the old object and goes on with block 1 of the new one. */
  lemma Mixed(c: U32)
    ensures var o := Reorder.Receive(Reorder.Receive(Reorder.Receive(Reorder.INIT,
                       ByteBlock(c, 0, 1)), ByteBlock(c, 0, 2)), ByteBlock(c, 1, 3));
            o.out == [ByteBlock(c, 0, 1), ByteBlock(c, 1, 3)]
  {
    var first := Reorder.Receive(Reorder.INIT, ByteBlock(c, 0, 1));
    assert first == Reorder.State(1, 1, map[], [ByteBlock(c, 0, 1)]);
    assert Reorder.Receive(first, ByteBlock(c, 0, 2)) == first;
    assert Reorder.Receive(first, ByteBlock(c, 1, 3)).out == first.out + [ByteBlock(c, 1, 3)];
  }

  lemma ReadBoth(c: U32)
    ensures var blocks := [ByteBlock(c, 0, 1), ByteBlock(c, 1, 3)];
            Payloads(blocks) == [1, 3] && Inbound.Serve(Inbound.Reading([], [], []), blocks, 2).returned == [1, 3]
  {
    var blocks := [ByteBlock(c, 0, 1), ByteBlock(c, 1, 3)];
    assert blocks[1..] == [ByteBlock(c, 1, 3)] && blocks[1..][1..] == [];
    assert Payloads(blocks[1..]) == [3] + Payloads([]) == [3];
    assert Payloads(blocks) == [1] + [3] == [1, 3];
    assert [] + [1, 3] == [1, 3] && [1, 3][..2] == [1, 3];
  }

  /** When an ID gets a second sending object, a reader can return a byte of the first and then one of the second: a
      prefix of neither. */
  lemma {:induction false} RestartMixes(cipher: Cipher, c: U32) returns (actions: seq<Action>)
    requires cipher.Lawful()
    ensures var s := Run(cipher, actions);
            && |s.receivers| == 1 && s.receivers[0].conn == c && c in s.senders
            && s.receivers[0].sink.Output() == [1, 3]
            && s.senders[c].written == [2, 3]
            && |s.retired| == 1 && s.retired[0].conn == c && s.retired[0].sender.written == [1]
  {
    hide Run, Cipher.Lawful, Reorder.Receive, Inbound.Serve, Payloads;
    actions := Start(cipher, c);
    actions := OneByte(cipher, actions, c, 1);
    assert Run(cipher, actions).senders[c].written == [1];
    actions := Step(cipher, actions, Restart(c));
    assert Ready(Run(cipher, actions), c);
    actions := OneByte(cipher, actions, c, 2);
    actions := OneByte(cipher, actions, c, 3);
    Mixed(c);
    actions := ReadTwo(cipher, actions, c);
  }

  lemma ReadTwo(cipher: Cipher, actions: seq<Action>, c: U32) returns (more: seq<Action>)
    requires var s := Run(cipher, actions);
             && |s.receivers| == 1 && s.receivers[0].sink == ToReader(Inbound.Reading([], [], []))
             && s.receivers[0].order.out == [ByteBlock(c, 0, 1), ByteBlock(c, 1, 3)]
    ensures var s, t := Run(cipher, actions), Run(cipher, more);
            && t.senders == s.senders && t.retired == s.retired
            && |t.receivers| == 1 && t.receivers[0].conn == s.receivers[0].conn
            && t.receivers[0].sink.Output() == [1, 3]
  {
    hide Run, Inbound.Serve, Payloads;
    ReadBoth(c);
    var blocks := [ByteBlock(c, 0, 1), ByteBlock(c, 1, 3)];
    assert blocks[0..2] == blocks && [] + [1, 3] == [1, 3];
    more := Step(cipher, actions, EndToEnd.Action.Read(0, 2, 2));
  }
}
