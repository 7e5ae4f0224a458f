/** From every reachable state of the transport, a new connection can work: whatever is written to it can come out at
    the other end, all of it and in order, by steps that are then possible. */
module Progress {
  import opened Bytes
  import opened Blocks
  import opened Records
  import opened EndToEnd
  import Inbound
  import Outbound
  import Reorder
  import Scheduler
  import ConnectionPool
  import Dispatching
  import Fates

  // ---------------------------------------------------------------- extending a run

  lemma Step(cipher: Cipher, actions: seq<Action>, a: Action) returns (more: seq<Action>)
    ensures more == actions + [a] && Run(cipher, more) == Apply(cipher, Run(cipher, actions), a)
  {
    more := actions + [a];
    assert more[..|actions|] == actions;
    hide Apply;
  }

  /** Steps of the tunnels alone. */
  lemma {:induction false} Carry(cipher: Cipher, actions: seq<Action>, steps: seq<Scheduler.Action>)
      returns (more: seq<Action>)
    requires Fates.NoSubmit(steps)
    ensures actions <= more
    ensures var s := Run(cipher, actions);
            Run(cipher, more) == s.(net := Fates.Then(cipher, s.net, steps))
    decreases |steps|
  {
    hide Run, Scheduler.Apply;
    if steps == [] {
      more := actions;
    } else {
      var next := Step(cipher, actions, Net(steps[0]));
      more := Carry(cipher, next, steps[1..]);
    }
  }

  lemma {:induction false} ThenDelivered(c: Cipher, s: Scheduler.Net, more: seq<Scheduler.Action>)
    ensures s.delivered <= Fates.Then(c, s, more).delivered
    decreases |more|
  {
    hide Scheduler.Apply;
    if more != [] {
      Dispatching.DeliveredGrows(c, s, more[0]);
      ThenDelivered(c, Scheduler.Apply(c, s, more[0]), more[1..]);
    }
  }

  lemma NetGoodStep(cipher: Cipher, s: State, a: Action)
    requires cipher.Lawful() && Fates.Good(cipher, s.net)
    ensures Fates.Good(cipher, Apply(cipher, s, a).net)
  {
    hide Fates.Good, Cipher.Lawful, Payloads, Inbound.Serve, Outbound.Deliver, Reorder.Receive, Scheduler.Apply,
      ConnectionPool.Apply;
    if Apply(cipher, s, a).net != s.net {
      match a {
        case Net(x) => Fates.ApplyGood(cipher, s.net, x);
        case SendPiece(c, now) =>
          var todo := s.senders[c].todo;
          var b := NextBlock(s, c, TYPE_DATA, todo[..Min(DATA_SIZE, |todo|)], now);
          Fates.ApplyGood(cipher, s.net, Scheduler.Submit(b));
        case SendControl(c, kind, data, now) =>
          Fates.ApplyGood(cipher, s.net, Scheduler.Submit(NextBlock(s, c, kind, data, now)));
        case _ =>
      }
    }
  }

  /** The block that a sender issues next. */
  function NextBlock(s: State, c: U32, kind: Byte, data: seq<Byte>, now: I64): Block
    requires c in s.senders && |data| < TWO_32
  {
    Block(kind, c, now, |s.senders[c].issued| % TWO_32, |data|, data)
  }

  lemma {:induction false} NetGood(cipher: Cipher, actions: seq<Action>)
    requires cipher.Lawful()
    ensures Fates.Good(cipher, Run(cipher, actions).net)
  {
    if actions == [] {
      assert Run(cipher, actions).net == Scheduler.Run(cipher, []);
      Fates.RunGood(cipher, []);
    } else {
      Dispatching.RunStep(cipher, actions);
      hide Run, Apply, Fates.Good, Cipher.Lawful;
      NetGood(cipher, actions[..|actions| - 1]);
      NetGoodStep(cipher, Run(cipher, actions[..|actions| - 1]), actions[|actions| - 1]);
    }
  }

  // ---------------------------------------------------------------- sending

  /** A connection ID at work: one sending object, all of whose blocks have been delivered, none of them before base. */
  ghost predicate Going(s: State, c: U32, base: nat) {
    && c in s.senders && NeverRestarted(s, c)
    && s.dispatched <= base <= |s.net.delivered|
    && (forall j :: 0 <= j < base ==> s.net.delivered[j].connectionID != c)
    && (forall b :: b in s.senders[c].issued ==> b in s.net.delivered)
  }

  /** Only the senders and the tunnels have moved. */
  ghost predicate Ahead(s: State, t: State, c: U32) {
    && t == s.(senders := t.senders, net := t.net)
    && s.net.delivered <= t.net.delivered
    && c in s.senders && c in t.senders && t.senders == s.senders[c := t.senders[c]]
  }

  lemma AheadAhead(s: State, t: State, u: State, c: U32)
    requires Ahead(s, t, c) && Ahead(t, u, c)
    ensures Ahead(s, u, c)
  {
    assert u.senders == s.senders[c := u.senders[c]];
  }

  /** A step that issues one block, which is then delivered. */
  lemma {:induction false} IssueOne(cipher: Cipher, actions: seq<Action>, c: U32, base: nat, a: Action, b: Block,
                                    todo: seq<Byte>)
      returns (more: seq<Action>)
    requires cipher.Lawful() && Going(Run(cipher, actions), c, base)
    requires b.WellFormed() && !b.KeepAlive() && b.connectionID == c
    requires var s := Run(cipher, actions); var x := s.senders[c];
             Apply(cipher, s, a) == s.(senders := s.senders[c := x.(issued := x.issued + [b], todo := todo)],
                                       net := Scheduler.Apply(cipher, s.net, Scheduler.Submit(b)))
    ensures actions <= more
    ensures Going(Run(cipher, more), c, base) && Ahead(Run(cipher, actions), Run(cipher, more), c)
    ensures var x := Run(cipher, actions).senders[c];
            Run(cipher, more).senders[c] == x.(issued := x.issued + [b], todo := todo)
  {
    hide Run, Apply, Scheduler.Apply, Cipher.Lawful, Fates.Good;
    var s := Run(cipher, actions);
    var issued := Step(cipher, actions, a);
    var s1 := Run(cipher, issued);
    NetGood(cipher, issued);
    Submitted(cipher, s.net, b);
    var steps := Fates.OneMore(cipher, s1.net, b);
    more := Carry(cipher, issued, steps);
    ThenDelivered(cipher, s1.net, steps);
    Scheduler.CountIn(Fates.Then(cipher, s1.net, steps).delivered, b);
  }

  lemma Submitted(c: Cipher, s: Scheduler.Net, b: Block)
    requires b.WellFormed() && !b.KeepAlive()
    ensures var t := Scheduler.Apply(c, s, Scheduler.Submit(b));
            b in t.poolQueue && t.delivered == s.delivered
  {
  }

  /** The rest of a write goes out piece by piece. */
  lemma {:induction false} SendPieces(cipher: Cipher, actions: seq<Action>, c: U32, base: nat)
      returns (more: seq<Action>)
    requires cipher.Lawful() && Going(Run(cipher, actions), c, base)
    ensures actions <= more
    ensures Going(Run(cipher, more), c, base) && Ahead(Run(cipher, actions), Run(cipher, more), c)
    ensures var x, y := Run(cipher, actions).senders[c], Run(cipher, more).senders[c];
            && y.todo == [] && y.written == x.written
            && |y.issued| == |x.issued| + CeilDiv(|x.todo|) && Controls(y.issued) == Controls(x.issued)
    decreases |Run(cipher, actions).senders[c].todo|
  {
    hide Run, Apply, Cipher.Lawful, Controls, CeilDiv, Going, Ahead;
    var s := Run(cipher, actions);
    SenderThere(s, c, base);
    var x := s.senders[c];
    assert Controls(x.issued) + [] == Controls(x.issued);
    if x.todo == [] {
      more := actions;
      CeilDivNothing();
    } else {
      var k := Min(DATA_SIZE, |x.todo|);
      var b := NextBlock(s, c, TYPE_DATA, x.todo[..k], 0);
      PieceApplies(cipher, s, c);
      ControlsSnoc(x.issued, b);
      CeilDivStep(|x.todo|);
      var first := IssueOne(cipher, actions, c, base, SendPiece(c, 0), b, x.todo[k..]);
      more := SendPieces(cipher, first, c, base);
      AheadAhead(s, Run(cipher, first), Run(cipher, more), c);
    }
  }

  lemma PieceApplies(cipher: Cipher, s: State, c: U32)
    requires c in s.senders && s.senders[c].todo != []
    ensures var x := s.senders[c]; var k := Min(DATA_SIZE, |x.todo|);
            var b := NextBlock(s, c, TYPE_DATA, x.todo[..k], 0);
            && b.WellFormed() && !b.KeepAlive()
            && Apply(cipher, s, SendPiece(c, 0)) ==
                 s.(senders := s.senders[c := x.(issued := x.issued + [b], todo := x.todo[k..])],
                    net := Scheduler.Apply(cipher, s.net, Scheduler.Submit(b)))
  {
    hide Scheduler.Apply;
  }

  lemma ControlApplies(cipher: Cipher, s: State, c: U32, kind: Byte, data: seq<Byte>)
    requires c in s.senders && Control(kind, data).Possible()
    ensures var x, b := s.senders[c], NextBlock(s, c, kind, data, 0);
            && b.WellFormed() && !b.KeepAlive()
            && Apply(cipher, s, SendControl(c, kind, data, 0)) ==
                 s.(senders := s.senders[c := x.(issued := x.issued + [b], todo := x.todo)],
                    net := Scheduler.Apply(cipher, s.net, Scheduler.Submit(b)))
  {
    hide Scheduler.Apply;
  }

  lemma SenderThere(s: State, c: U32, base: nat)
    requires Going(s, c, base)
    ensures c in s.senders && Ahead(s, s, c)
  {
  }

  lemma CeilDivNothing()
    ensures CeilDiv(0) == 0
  {
  }

  lemma CeilDivStep(n: nat)
    requires n > 0
    ensures CeilDiv(n) == 1 + CeilDiv(n - Min(DATA_SIZE, n))
  {
  }

  function CeilDiv(n: nat): nat {
    (n + DATA_SIZE - 1) / DATA_SIZE
  }

  /** What the writing end of a connection does: writes bytes, or sends a Connect or a Disconnect. */
  datatype Op = Data(bytes: seq<Byte>) | Control(kind: Byte, data: seq<Byte>)
  {
    predicate Possible() {
      Control? ==> |data| < TWO_32 && (kind == TYPE_CONNECT || (kind == TYPE_DISCONNECT && |data| == 1))
    }

    function Blocks(): nat {
      if Data? then CeilDiv(|bytes|) else 1
    }

    function Bytes(): seq<Byte> {
      if Data? then bytes else []
    }

    function Sent(): seq<(Byte, seq<Byte>)> {
      if Data? then [] else [(kind, data)]
    }
  }

  predicate AllPossible(ops: seq<Op>) {
    forall i :: 0 <= i < |ops| ==> ops[i].Possible()
  }

  function BlockCount(ops: seq<Op>): nat {
    if ops == [] then 0 else ops[0].Blocks() + BlockCount(ops[1..])
  }

  function DataOf(ops: seq<Op>): seq<Byte> {
    if ops == [] then [] else ops[0].Bytes() + DataOf(ops[1..])
  }

  function ControlsOf(ops: seq<Op>): seq<(Byte, seq<Byte>)> {
    if ops == [] then [] else ops[0].Sent() + ControlsOf(ops[1..])
  }

  /** The control blocks of a list, in order. */
  function Controls(bs: seq<Block>): seq<(Byte, seq<Byte>)> {
    if bs == [] then []
    else
      var b := bs[|bs| - 1];
      Controls(bs[..|bs| - 1]) + if b.kind == TYPE_DATA then [] else [(b.kind, b.data)]
  }

  lemma ControlsSnoc(bs: seq<Block>, b: Block)
    ensures Controls(bs + [b]) == Controls(bs) + if b.kind == TYPE_DATA then [] else [(b.kind, b.data)]
  {
    assert (bs + [b])[..|bs|] == bs;
  }

  /** One operation, and all its blocks delivered. */
  lemma {:induction false} SendOp(cipher: Cipher, actions: seq<Action>, c: U32, base: nat, op: Op)
      returns (more: seq<Action>)
    requires cipher.Lawful() && Going(Run(cipher, actions), c, base) && op.Possible()
    requires Run(cipher, actions).senders[c].todo == []
    ensures actions <= more
    ensures Going(Run(cipher, more), c, base) && Ahead(Run(cipher, actions), Run(cipher, more), c)
    ensures var x, y := Run(cipher, actions).senders[c], Run(cipher, more).senders[c];
            && y.todo == [] && y.written == x.written + op.Bytes()
            && |y.issued| == |x.issued| + op.Blocks() && Controls(y.issued) == Controls(x.issued) + op.Sent()
  {
    var s := Run(cipher, actions);
    var x := s.senders[c];
    match op {
      case Data(bytes) =>
        var first := Step(cipher, actions, Write(c, bytes));
        var s1 := Run(cipher, first);
        assert Going(s1, c, base) && Ahead(s, s1, c);
        assert s1.senders[c] == x.(todo := bytes, written := x.written + bytes);
        hide Run, Apply, Going, Ahead, Cipher.Lawful, Controls;
        more := SendPieces(cipher, first, c, base);
        AheadAhead(s, s1, Run(cipher, more), c);
        assert Controls(x.issued) + [] == Controls(x.issued);
      case Control(kind, data) =>
        var b := NextBlock(s, c, kind, data, 0);
        hide Run, Apply, Cipher.Lawful, Controls;
        ControlsSnoc(x.issued, b);
        ControlApplies(cipher, s, c, kind, data);
        more := IssueOne(cipher, actions, c, base, SendControl(c, kind, data, 0), b, x.todo);
        assert x.written + [] == x.written;
    }
  }

  lemma {:induction false} SendOps(cipher: Cipher, actions: seq<Action>, c: U32, base: nat, ops: seq<Op>)
      returns (more: seq<Action>)
    requires cipher.Lawful() && Going(Run(cipher, actions), c, base) && AllPossible(ops)
    requires Run(cipher, actions).senders[c].todo == []
    ensures actions <= more
    ensures Going(Run(cipher, more), c, base) && Ahead(Run(cipher, actions), Run(cipher, more), c)
    ensures var x, y := Run(cipher, actions).senders[c], Run(cipher, more).senders[c];
            && y.todo == [] && y.written == x.written + DataOf(ops)
            && |y.issued| == |x.issued| + BlockCount(ops) && Controls(y.issued) == Controls(x.issued) + ControlsOf(ops)
    decreases |ops|
  {
    var s := Run(cipher, actions);
    var x := s.senders[c];
    if ops == [] {
      more := actions;
      assert x.written + [] == x.written && Controls(x.issued) + [] == Controls(x.issued);
    } else {
      var first := SendOp(cipher, actions, c, base, ops[0]);
      hide Run, Going, Ahead, Cipher.Lawful, Controls;
      more := SendOps(cipher, first, c, base, ops[1..]);
      AheadAhead(s, Run(cipher, first), Run(cipher, more), c);
      Assoc(x.written, ops[0].Bytes(), DataOf(ops[1..]));
      Assoc(Controls(x.issued), ops[0].Sent(), ControlsOf(ops[1..]));
    }
  }

  // ---------------------------------------------------------------- receiving

  /** The blocks of one connection. */
  function OfConn(bs: seq<Block>, c: U32): seq<Block> {
    if bs == [] then [] else (if bs[0].connectionID == c then [bs[0]] else []) + OfConn(bs[1..], c)
  }

  lemma {:induction false} OfConnHas(bs: seq<Block>, c: U32, b: Block)
    ensures b in OfConn(bs, c) <==> b in bs && b.connectionID == c
  {
    if bs != [] {
      OfConnHas(bs[1..], c, b);
      assert bs == [bs[0]] + bs[1..];
    }
  }

  /** Only the receivers' queues have moved, and of receiver r only as told. */
  ghost predicate Given(s: State, t: State, r: nat, inbox: seq<Block>) {
    && t == s.(dispatched := |s.net.delivered|, receivers := t.receivers)
    && r < |s.receivers| == |t.receivers|
    && t.receivers[r] == s.receivers[r].(inbox := inbox)
  }

  lemma DispatchOne(cipher: Cipher, s: State, r: nat)
    requires LiveOk(s) && Dispatching.Filed(s, r) && s.dispatched < |s.net.delivered|
    ensures var t, b := Apply(cipher, s, Dispatch(false)), s.net.delivered[s.dispatched]; var x := s.receivers[r];
            && t == s.(dispatched := s.dispatched + 1, receivers := t.receivers) && |t.receivers| == |s.receivers|
            && t.receivers[r] == x.(inbox := x.inbox + if b.connectionID == x.conn then [b] else [])
            && Dispatching.Filed(t, r)
  {
    var x := s.receivers[r];
    assert x.inbox + [] == x.inbox;
  }

  /** All that has been delivered is dispatched, and a filed receiver gets the blocks of its ID. */
  lemma {:induction false} DispatchAll(cipher: Cipher, actions: seq<Action>, r: nat) returns (more: seq<Action>)
    requires cipher.Lawful() && Dispatching.Filed(Run(cipher, actions), r)
    requires Run(cipher, actions).dispatched <= |Run(cipher, actions).net.delivered|
    ensures actions <= more
    ensures var s := Run(cipher, actions); var x := s.receivers[r];
            Given(s, Run(cipher, more), r, x.inbox + OfConn(s.net.delivered[s.dispatched..], x.conn))
    decreases |Run(cipher, actions).net.delivered| - Run(cipher, actions).dispatched
  {
    hide Run, Apply, Cipher.Lawful, LiveOk, Inv;
    var s := Run(cipher, actions);
    var x, rest := s.receivers[r], s.net.delivered[s.dispatched..];
    if rest == [] {
      more := actions;
      assert x.inbox + [] == x.inbox;
    } else {
      RunInv(cipher, actions);
      DispatchOne(cipher, s, r);
      var first := Step(cipher, actions, Dispatch(false));
      assert rest[1..] == s.net.delivered[s.dispatched + 1..];
      more := DispatchAll(cipher, first, r);
      Assoc(x.inbox, if rest[0].connectionID == x.conn then [rest[0]] else [], OfConn(rest[1..], x.conn));
    }
  }

  lemma OrderOne(cipher: Cipher, s: State, r: nat)
    requires r < |s.receivers| && s.receivers[r].inbox != []
    ensures var t, x := Apply(cipher, s, Order(r)), s.receivers[r];
            t == s.(receivers := s.receivers[r := x.(inbox := x.inbox[1..], arrived := x.arrived + [x.inbox[0]],
                                                      order := Reorder.Receive(x.order, x.inbox[0]))])
  {
    hide Reorder.Receive;
  }

  /** A receiver orders all it has been given. */
  lemma {:induction false} OrderAll(cipher: Cipher, actions: seq<Action>, r: nat) returns (more: seq<Action>)
    requires r < |Run(cipher, actions).receivers|
    ensures actions <= more
    ensures var s, t := Run(cipher, actions), Run(cipher, more);
            && t == s.(receivers := t.receivers) && |t.receivers| == |s.receivers|
            && t.receivers[r].inbox == [] && t.receivers[r].arrived == s.receivers[r].arrived + s.receivers[r].inbox
            && t.receivers[r].conn == s.receivers[r].conn && t.receivers[r].sink == s.receivers[r].sink
    decreases |Run(cipher, actions).receivers[r].inbox|
  {
    hide Run, Apply, Reorder.Receive;
    var s := Run(cipher, actions);
    var x := s.receivers[r];
    if x.inbox == [] {
      more := actions;
      assert x.arrived + [] == x.arrived;
    } else {
      OrderOne(cipher, s, r);
      var first := Step(cipher, actions, Order(r));
      Dispatching.OrderSame(x.arrived, x.inbox);
      more := OrderAll(cipher, first, r);
    }
  }

  /** What a receiver that got all blocks of one object, and no others, puts out. */
  lemma {:induction false} AllOrdered(cipher: Cipher, actions: seq<Action>, r: nat, k: Sender)
    requires cipher.Lawful() && r < |Run(cipher, actions).receivers|
    requires var s := Run(cipher, actions); var x := s.receivers[r];
             && SendsAs(s, x.conn, k) && NeverRestarted(s, x.conn) && |k.issued| < TWO_32
             && Within(k.issued, x.arrived)
    ensures var x := Run(cipher, actions).receivers[r];
            x.order.out == k.issued && Payloads(k.issued) + k.todo == k.written && AllWellFormed(k.issued)
  {
    hide Run, Cipher.Lawful, SendsAs, NeverRestarted, Within, Reorder.Run, Reorder.Replayed, SinkOk;
    var x := Run(cipher, actions).receivers[r];
    ReceiverAfter(cipher, actions, r, k);
    assert Numbers(k.issued, x.conn);
    OrderedPrefix(k.issued, x.conn, x.arrived);
    OrderedWhole(k.issued, x.conn, x.arrived);
  }

  /** From every reachable state, a reader can go on to have consumed any further number of the blocks put in order, and
      to have returned any further number of their bytes: those first, and the rest of them staged. */
  lemma {:induction false} ReadsOnTo(cipher: Cipher, actions: seq<Action>, r: nat, k: nat, m: nat)
      returns (more: seq<Action>)
    requires cipher.Lawful() && r < |Run(cipher, actions).receivers|
    requires var x := Run(cipher, actions).receivers[r];
             && x.sink.ToReader? && |x.sink.reading.consumed| <= k <= |x.order.out|
             && |x.sink.reading.returned| <= m <= |Payloads(x.order.out[..k])|
    ensures actions <= more
    ensures var s := Run(cipher, actions); var x := s.receivers[r]; var all := Payloads(x.order.out[..k]);
            Run(cipher, more) ==
              s.(receivers := s.receivers[r :=
                   x.(sink := ToReader(Inbound.Reading(x.order.out[..k], all[m..], all[..m])))])
  {
    hide Run, Payloads, Inbound.Serve;
    RunInv(cipher, actions);
    var s := Run(cipher, actions);
    var x := s.receivers[r];
    var v, all := x.sink.reading, Payloads(x.order.out[..k]);
    assert ReceiverOk(s.net.submitted, x);
    hide Inv, LiveOk, ReceiverOk;
    ReadsTo(v, x.order.out, k, m);
    more := Step(cipher, actions, EndToEnd.Action.Read(r, k - |v.consumed|, m - |v.returned|));
  }

  lemma ReadsTo(v: Inbound.Reading, out: seq<Block>, k: nat, m: nat)
    requires v.Faithful() && v.consumed <= out && |v.consumed| <= k <= |out|
    requires |v.returned| <= m <= |Payloads(out[..k])|
    ensures var taken, all := out[|v.consumed|..k], Payloads(out[..k]);
            && m - |v.returned| <= |v.staging + Payloads(taken)|
            && Inbound.Serve(v, taken, m - |v.returned|) == Inbound.Reading(out[..k], all[m..], all[..m])
  {
    hide Payloads, Inbound.Serve;
    var taken, all := out[|v.consumed|..k], Payloads(out[..k]);
    assert v.consumed + taken == out[..k];
    PayloadsAppend(v.consumed, taken);
    assert v.returned <= all;
    SplitAt(all, m);
    Inbound.FaithfulServes(v, Inbound.Reading(out[..k], all[m..], all[..m]), taken, all[|v.returned|..m]);
  }

  /** From every reachable state, for every new ID and everything one may do at its writing end in fewer than 2^32
      blocks: there is a continuation after which a reader with that ID has returned exactly the bytes written and
      consumed exactly the control blocks sent, in order. */
  lemma {:induction false} NewReaderWorks(cipher: Cipher, actions: seq<Action>, c: U32, ops: seq<Op>)
      returns (more: seq<Action>, r: nat)
    requires cipher.Lawful() && c !in Run(cipher, actions).senders
    requires AllPossible(ops) && BlockCount(ops) < TWO_32
    ensures actions <= more
    ensures var s := Run(cipher, more);
            && r < |s.receivers| && s.receivers[r].conn == c && s.receivers[r].sink.ToReader?
            && s.receivers[r].sink.reading.returned == DataOf(ops)
            && Controls(s.receivers[r].sink.reading.consumed) == ControlsOf(ops)
  {
    r := |Run(cipher, actions).receivers|;
    var base := |Run(cipher, actions).net.delivered|;
    var started := OpenReader(cipher, actions, c);
    hide Run, Apply, Cipher.Lawful, Going, DataOf, ControlsOf, Controls;
    var sent := SendOps(cipher, started, c, base, ops);
    AllLatest(cipher, sent, c, base);
    var given := ReceiveAll(cipher, sent, c, r);
    var k := Run(cipher, given).senders[c];
    assert k.issued[..|k.issued|] == k.issued && Payloads(k.issued)[..|Payloads(k.issued)|] == Payloads(k.issued);
    more := ReadsOnTo(cipher, given, r, |k.issued|, |Payloads(k.issued)|);
    NothingSent();
  }

  lemma NothingSent()
    ensures Controls([]) == []
    ensures forall x: seq<Byte> :: [] + x == x
    ensures forall x: seq<(Byte, seq<Byte>)> :: [] + x == x
  {
  }

  lemma {:induction false} OpenReader(cipher: Cipher, actions: seq<Action>, c: U32) returns (more: seq<Action>)
    requires cipher.Lawful() && c !in Run(cipher, actions).senders
    ensures actions <= more
    ensures var s, t := Run(cipher, actions), Run(cipher, more);
            && Going(t, c, |s.net.delivered|) && t.senders[c] == Sender([], [], [])
            && |t.receivers| == |s.receivers| + 1 && Dispatching.Filed(t, |s.receivers|)
            && t.receivers[|s.receivers|] == NewReceiver(c, ToReader(Inbound.Reading([], [], [])))
  {
    RunInv(cipher, actions);
    Dispatching.DispatchExact(cipher, actions);
    Unused(cipher, Run(cipher, actions), c);
    hide Run, Cipher.Lawful, Inv, Dispatching.Pick;
    var first := Step(cipher, actions, NewSender(c));
    more := Step(cipher, first, NewReader(c));
  }

  /** Nothing was ever submitted under an ID that has no sender. */
  lemma Unused(cipher: Cipher, s: State, c: U32)
    requires Inv(cipher, s) && c !in s.senders
    ensures NeverRestarted(s, c)
    ensures forall j :: 0 <= j < |s.net.delivered| ==> s.net.delivered[j].connectionID != c
  {
    forall j | 0 <= j < |s.net.delivered| ensures s.net.delivered[j].connectionID != c {
      assert s.net.delivered[j] in s.net.submitted;
      assert Issued(s.senders, s.retired, s.net.delivered[j]);
    }
  }

  /** What was delivered is dispatched and ordered. */
  lemma {:induction false} ReceiveAll(cipher: Cipher, actions: seq<Action>, c: U32, r: nat)
      returns (more: seq<Action>)
    requires cipher.Lawful() && c in Run(cipher, actions).senders && NeverRestarted(Run(cipher, actions), c)
    requires var s := Run(cipher, actions);
             && Dispatching.Filed(s, r) && s.receivers[r].conn == c && s.dispatched <= |s.net.delivered|
             && (forall b :: b in s.senders[c].issued ==>
                   b in s.receivers[r].inbox || b in s.net.delivered[s.dispatched..])
             && s.senders[c].todo == [] && |s.senders[c].issued| < TWO_32
    ensures actions <= more
    ensures var s, t := Run(cipher, actions), Run(cipher, more);
            && t.senders == s.senders && |t.receivers| == |s.receivers| && c in t.senders
            && t.receivers[r].conn == c && t.receivers[r].sink == s.receivers[r].sink
            && t.receivers[r].order.out == t.senders[c].issued
            && Payloads(t.senders[c].issued) == t.senders[c].written && AllWellFormed(t.senders[c].issued)
  {
    hide Run, Apply, Cipher.Lawful, Payloads, AllWellFormed;
    var s := Run(cipher, actions);
    var dispatched := DispatchAll(cipher, actions, r);
    more := OrderAll(cipher, dispatched, r);
    var t, k := Run(cipher, more), s.senders[c];
    var latest := s.net.delivered[s.dispatched..];
    IssuedConn(cipher, actions, c);
    forall b | b in k.issued ensures b in t.receivers[r].arrived {
      OfConnHas(latest, c, b);
    }
    AllOrdered(cipher, more, r, k);
    assert Payloads(k.issued) + [] == Payloads(k.issued);
  }

  lemma {:induction false} IssuedConn(cipher: Cipher, actions: seq<Action>, c: U32)
    requires cipher.Lawful() && c in Run(cipher, actions).senders
    ensures forall b :: b in Run(cipher, actions).senders[c].issued ==> b.connectionID == c
  {
    RunInv(cipher, actions);
    hide Run, Cipher.Lawful;
    Dispatching.NumbersOf(c, Run(cipher, actions).senders[c]);
  }

  lemma {:induction false} AllLatest(cipher: Cipher, actions: seq<Action>, c: U32, base: nat)
    requires cipher.Lawful() && Going(Run(cipher, actions), c, base)
    ensures var s := Run(cipher, actions);
            && c in s.senders && NeverRestarted(s, c) && s.dispatched <= |s.net.delivered|
            && forall b :: b in s.senders[c].issued ==> b in s.net.delivered[s.dispatched..]
  {
    hide Run, Cipher.Lawful;
    var s := Run(cipher, actions);
    IssuedConn(cipher, actions, c);
    forall b | b in s.senders[c].issued ensures b in s.net.delivered[s.dispatched..] {
      var j :| 0 <= j < |s.net.delivered| && s.net.delivered[j] == b;
      assert s.net.delivered[s.dispatched..][j - s.dispatched] == b;
    }
  }

  // ---------------------------------------------------------------- the accepting side

  lemma DispatchPast(cipher: Cipher, s: State, c: U32)
    requires LiveOk(s) && s.dispatched < |s.net.delivered| && s.net.delivered[s.dispatched].connectionID != c
    ensures var t := Apply(cipher, s, Dispatch(false));
            t == s.(dispatched := s.dispatched + 1, receivers := t.receivers) && Live(t) == Live(s)
  {
    DispatchApplies(cipher, s, false);
    hide Apply, ConnectionPool.Apply;
  }

  lemma DispatchNew(cipher: Cipher, s: State, c: U32)
    requires LiveOk(s) && s.dispatched < |s.net.delivered| && s.net.delivered[s.dispatched].connectionID == c
    requires c !in Live(s)
    ensures var t, b := Apply(cipher, s, Dispatch(true)), s.net.delivered[s.dispatched];
            && t == s.(dispatched := s.dispatched + 1, receivers := t.receivers, conns := t.conns)
            && t.receivers == s.receivers + [NewReceiver(c, ToSocket(Outbound.Socket([], [], true))).(inbox := [b])]
            && Dispatching.Filed(t, |s.receivers|)
  {
    DispatchApplies(cipher, s, true);
    hide Apply;
  }

  /** The blocks of an ID among these are in one or the other list. */
  ghost predicate Covered(bs: seq<Block>, c: U32, inbox: seq<Block>, rest: seq<Block>) {
    forall b :: b in bs && b.connectionID == c ==> b in inbox || b in rest
  }

  ghost predicate Mentions(bs: seq<Block>, c: U32) {
    exists b :: b in bs && b.connectionID == c
  }

  lemma FirstCovered(bs: seq<Block>, c: U32, inbox: seq<Block>, rest: seq<Block>)
    requires Mentions(bs, c)
    ensures bs != [] && (bs[0].connectionID == c ==> Covered(bs, c, [bs[0]], bs[1..]))
    ensures bs[0].connectionID != c ==> Mentions(bs[1..], c) && (Covered(bs[1..], c, inbox, rest) ==>
                                                                 Covered(bs, c, inbox, rest))
  {
    assert bs == [bs[0]] + bs[1..];
  }

  /** The first block of an ID that is not filed makes a receiver. */
  lemma {:induction false} Accepted(cipher: Cipher, actions: seq<Action>, c: U32) returns (more: seq<Action>, r: nat)
    requires cipher.Lawful()
    requires var s := Run(cipher, actions);
             s.dispatched <= |s.net.delivered| && c !in Live(s) && Mentions(s.net.delivered[s.dispatched..], c)
    ensures actions <= more
    ensures var s, t := Run(cipher, actions), Run(cipher, more);
            && t == s.(dispatched := t.dispatched, receivers := t.receivers, conns := t.conns)
            && Dispatching.Filed(t, r) && t.dispatched <= |t.net.delivered|
            && t.receivers[r].conn == c && t.receivers[r].sink == ToSocket(Outbound.Socket([], [], true))
            && Covered(s.net.delivered[s.dispatched..], c, t.receivers[r].inbox, t.net.delivered[t.dispatched..])
    decreases |Run(cipher, actions).net.delivered| - Run(cipher, actions).dispatched
  {
    hide Run, Apply, Cipher.Lawful, Inv, LiveOk, Live, Mentions, Covered;
    var s := Run(cipher, actions);
    RunInv(cipher, actions);
    var rest := s.net.delivered[s.dispatched..];
    FirstCovered(rest, c, [], []);
    assert rest[1..] == s.net.delivered[s.dispatched + 1..];
    if rest[0].connectionID == c {
      r := |s.receivers|;
      DispatchNew(cipher, s, c);
      more := Step(cipher, actions, Dispatch(true));
    } else {
      DispatchPast(cipher, s, c);
      var first := Step(cipher, actions, Dispatch(false));
      more, r := Accepted(cipher, first, c);
      var t := Run(cipher, more);
      FirstCovered(rest, c, t.receivers[r].inbox, t.net.delivered[t.dispatched..]);
    }
  }

  /** Whatever part of the next block a write takes, and whether or not it fails, is a step. */
  lemma SendOutAny(cipher: Cipher, s: State, r: nat, n: nat, fails: bool)
    requires r < |s.receivers| && s.receivers[r].sink.ToSocket?
    requires var v, out := s.receivers[r].sink.socket, s.receivers[r].order.out;
             |v.consumed| < |out| && out[|v.consumed|].WellFormed() && n <= |out[|v.consumed|].data|
    ensures var x := s.receivers[r]; var v := x.sink.socket; var b := x.order.out[|v.consumed|];
            var e := Outbound.Took(b, n, fails);
            Apply(cipher, s, SendOut(r, n, fails)) ==
              s.(receivers := s.receivers[r :=
                   x.(sink := ToSocket(Outbound.Socket(v.consumed + [b],
                                                       if v.writable then v.accepted + e.Part() else v.accepted,
                                                       v.writable && !e.EndsWriting())))])
  {
    var v := s.receivers[r].sink.socket;
    Outbound.StepOpen(v, Outbound.Took(s.receivers[r].order.out[|v.consumed|], n, fails));
  }

  /** A write that takes all of a block which does not end the writing. */
  lemma SendOutOne(cipher: Cipher, s: State, r: nat)
    requires r < |s.receivers| && s.receivers[r].sink.ToSocket?
    requires var v, out := s.receivers[r].sink.socket, s.receivers[r].order.out;
             && v.writable && |v.consumed| < |out| && out[|v.consumed|].WellFormed()
             && !Outbound.Took(out[|v.consumed|], |out[|v.consumed|].data|, false).EndsWriting()
    ensures var x := s.receivers[r]; var v := x.sink.socket; var b := x.order.out[|v.consumed|];
            Apply(cipher, s, SendOut(r, |b.data|, false)) ==
              s.(receivers := s.receivers[r :=
                   x.(sink := ToSocket(Outbound.Socket(v.consumed + [b], v.accepted + b.Payload(), true)))])
  {
    var v := s.receivers[r].sink.socket;
    var b := s.receivers[r].order.out[|v.consumed|];
    SendOutAny(cipher, s, r, |b.data|, false);
    assert b.data[..|b.data|] == b.data && v.accepted + [] == v.accepted;
  }

  /** A block that leaves the socket writable, if its write does not fail. */
  ghost predicate Passes(b: Block) {
    b.WellFormed() && !Outbound.Took(b, |b.data|, false).EndsWriting()
  }

  lemma {:induction false} SendOutAll(cipher: Cipher, actions: seq<Action>, r: nat) returns (more: seq<Action>)
    requires r < |Run(cipher, actions).receivers|
    requires var x := Run(cipher, actions).receivers[r];
             && x.sink.ToSocket? && x.sink.socket.writable && x.sink.socket.consumed <= x.order.out
             && forall b :: b in x.order.out ==> Passes(b)
    ensures actions <= more
    ensures var s, t := Run(cipher, actions), Run(cipher, more); var x := s.receivers[r]; var v := x.sink.socket;
            && |t.receivers| == |s.receivers| && t.senders == s.senders && t.receivers[r].conn == x.conn
            && t.receivers[r].sink ==
                 ToSocket(Outbound.Socket(x.order.out, v.accepted + Payloads(x.order.out[|v.consumed|..]), true))
    decreases |Run(cipher, actions).receivers[r].order.out| - |Run(cipher, actions).receivers[r].sink.Consumed()|
  {
    hide Run, Apply;
    var s := Run(cipher, actions);
    var x := s.receivers[r];
    var v, rest := x.sink.socket, x.order.out[|x.sink.socket.consumed|..];
    if rest == [] {
      more := actions;
      assert v.accepted + [] == v.accepted;
    } else {
      var b := x.order.out[|v.consumed|];
      assert b in x.order.out && rest[0] == b && rest[1..] == x.order.out[|v.consumed| + 1..];
      SendOutOne(cipher, s, r);
      var first := Step(cipher, actions, SendOut(r, |b.data|, false));
      Assoc(v.accepted, b.Payload(), Payloads(rest[1..]));
      assert v.consumed + [b] <= x.order.out;
      more := SendOutAll(cipher, first, r);
    }
  }

  /** No operation shuts down the writing. */
  predicate StaysOpen(ops: seq<Op>) {
    forall i :: 0 <= i < |ops| && ops[i].Control? && ops[i].kind == TYPE_DISCONNECT ==> ops[i].data == [SHUTDOWN_READ]
  }

  lemma {:induction false} ControlsHas(bs: seq<Block>, b: Block)
    requires b in bs && b.kind != TYPE_DATA
    ensures (b.kind, b.data) in Controls(bs)
  {
    var k := |bs| - 1;
    if b != bs[k] {
      assert b in bs[..k];
      ControlsHas(bs[..k], b);
    }
  }

  lemma {:induction false} ControlsOfHas(ops: seq<Op>, kind: Byte, data: seq<Byte>)
    requires (kind, data) in ControlsOf(ops)
    ensures Control(kind, data) in ops
  {
    if ops[0] != Control(kind, data) {
      ControlsOfHas(ops[1..], kind, data);
    }
  }

  lemma AllPass(issued: seq<Block>, ops: seq<Op>)
    requires AllWellFormed(issued) && AllPossible(ops) && StaysOpen(ops) && Controls(issued) == ControlsOf(ops)
    ensures forall b :: b in issued ==> Passes(b)
  {
    forall b | b in issued ensures Passes(b) {
      if b.kind != TYPE_DATA {
        ControlsHas(issued, b);
        ControlsOfHas(ops, b.kind, b.data);
      }
    }
  }

  lemma {:induction false} OpenSender(cipher: Cipher, actions: seq<Action>, c: U32) returns (more: seq<Action>)
    requires cipher.Lawful() && c !in Run(cipher, actions).senders
    ensures actions <= more
    ensures var s, t := Run(cipher, actions), Run(cipher, more);
            && Going(t, c, |s.net.delivered|) && t.senders[c] == Sender([], [], [])
            && t.conns == s.conns && t.receivers == s.receivers
  {
    RunInv(cipher, actions);
    Dispatching.DispatchExact(cipher, actions);
    Unused(cipher, Run(cipher, actions), c);
    hide Run, Cipher.Lawful, Inv, Dispatching.Pick;
    more := Step(cipher, actions, NewSender(c));
  }

  /** The same on the accepting side: from every reachable state, for every new ID that is not filed and everything one
      may do at its writing end in fewer than 2^32 blocks short of shutting it down, there is a continuation after which
      a socket has been made for that ID and has accepted exactly the bytes written, and is still open. */
  lemma {:induction false} NewSocketWorks(cipher: Cipher, actions: seq<Action>, c: U32, ops: seq<Op>)
      returns (more: seq<Action>, r: nat)
    requires cipher.Lawful() && c !in Run(cipher, actions).senders && c !in Live(Run(cipher, actions))
    requires AllPossible(ops) && StaysOpen(ops) && 0 < BlockCount(ops) < TWO_32
    ensures actions <= more
    ensures var s := Run(cipher, more);
            && r < |s.receivers| && s.receivers[r].conn == c && s.receivers[r].sink.ToSocket?
            && s.receivers[r].sink.socket.accepted == DataOf(ops) && s.receivers[r].sink.socket.writable
            && Controls(s.receivers[r].sink.socket.consumed) == ControlsOf(ops)
  {
    var base := |Run(cipher, actions).net.delivered|;
    var started := OpenSender(cipher, actions, c);
    hide Run, Apply, Cipher.Lawful, Going, DataOf, ControlsOf, Controls, BlockCount, Live;
    var sent := SendOps(cipher, started, c, base, ops);
    SameLive(Run(cipher, actions), Run(cipher, started));
    SameLive(Run(cipher, started), Run(cipher, sent));
    AllLatest(cipher, sent, c, base);
    IssuedConn(cipher, sent, c);
    NothingSent();
    var k := Run(cipher, sent).senders[c];
    assert k.issued[0] in k.issued;
    var accepted;
    accepted, r := Accepted(cipher, sent, c);
    var given := ReceiveAll(cipher, accepted, c, r);
    AllPass(k.issued, ops);
    hide Passes;
    more := SendOutAll(cipher, given, r);
    assert k.issued[0..] == k.issued;
  }

  lemma SameLive(s: State, t: State)
    requires s.conns == t.conns
    ensures Live(s) == Live(t)
  {
  }
}
