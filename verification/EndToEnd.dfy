/** One direction of the whole transport: senders number and submit blocks, the tunnels lose, repeat and reorder them,
    the far end dispatches, orders and hands out their bytes. */
module EndToEnd {
  import opened Bytes
  import opened Blocks
  import opened Records
  import opened Inbound
  import opened Outbound
  import Reorder
  import Scheduler
  import ConnectionPool

  /** A sending connection: the blocks it numbered, the rest of the current write, and all bytes ever written. */
  datatype Sender = Sender(issued: seq<Block>, todo: seq<Byte>, written: seq<Byte>)

  /** A sending object that was replaced by a new one under the same ID. */
  datatype Retired = Retired(conn: U32, sender: Sender)

  /** Where a receiving connection's bytes go: to Read calls, or to a socket. */
  datatype Sink = ToReader(reading: Reading) | ToSocket(socket: Socket)
  {
    function Consumed(): seq<Block> {
      if ToReader? then reading.consumed else socket.consumed
    }

    /** The bytes that left the transport. */
    function Output(): seq<Byte> {
      if ToReader? then reading.returned else socket.accepted
    }
  }

  /** A receiving connection object. arrived is history: everything taken from its queue so far. */
  datatype Receiver = Receiver(conn: U32, inbox: seq<Block>, arrived: seq<Block>, order: Reorder.State, sink: Sink)

  datatype State = State(
    senders: map<U32, Sender>,
    retired: seq<Retired>,
    net: Scheduler.Net,
    dispatched: nat,
    conns: ConnectionPool.State,
    receivers: seq<Receiver>)

  /** The connection pool of the receiving end; its objects are the receivers. */
  const ONE_POOL := ConnectionPool.State([map[]], [], 0, false)

  const INIT := State(map[], [], Scheduler.EMPTY, 0, ONE_POOL, [])

  datatype Action =
    | NewSender(c: U32)
    | Restart(c: U32)
    | Write(c: U32, data: seq<Byte>)
    | SendPiece(c: U32, now: I64)
    | SendControl(c: U32, kind: Byte, data: seq<Byte>, now: I64)
    | Net(a: Scheduler.Action)
    | NewReader(c: U32)
    | Dispatch(accept: bool)
    | Remove(o: nat)
    | Order(r: nat)
    | Read(r: nat, blocks: nat, n: nat)
    | SendOut(r: nat, n: nat, fails: bool)

  function NewReceiver(c: U32, sink: Sink): Receiver {
    Receiver(c, [], [], Reorder.INIT, sink)
  }

  /** Numbering a block and putting it on the send queue. */
  function Issue(cipher: Cipher, s: State, c: U32, kind: Byte, data: seq<Byte>, now: I64, todo: seq<Byte>): State
    requires c in s.senders && |data| < TWO_32
  {
    var b := Block(kind, c, now, |s.senders[c].issued| % TWO_32, |data|, data);
    s.(senders := s.senders[c := s.senders[c].(issued := s.senders[c].issued + [b], todo := todo)],
       net := Scheduler.Apply(cipher, s.net, Scheduler.Submit(b)))
  }

  /** The map from connection IDs to receivers. */
  function Live(s: State): map<U32, nat> {
    if s.conns.pools == [] then map[] else s.conns.pools[0]
  }

  function Update(s: State, r: nat, x: Receiver): State
    requires r < |s.receivers|
  {
    s.(receivers := s.receivers[r := x])
  }

  /** A step; an action that is not possible changes nothing. */
  function Apply(cipher: Cipher, s: State, a: Action): State {
    match a
    case NewSender(c) =>
      if c !in s.senders then s.(senders := s.senders[c := Sender([], [], [])]) else s
    case Restart(c) =>
      // an ID drawn again, or a late Connect block that dials again: the new object numbers from zero
      if c in s.senders then
        s.(senders := s.senders[c := Sender([], [], [])], retired := s.retired + [Retired(c, s.senders[c])])
      else s
    case Write(c, data) =>
      if c in s.senders && s.senders[c].todo == [] then
        var x := s.senders[c];
        s.(senders := s.senders[c := x.(todo := data, written := x.written + data)])
      else s
    case SendPiece(c, now) =>
      if c in s.senders && s.senders[c].todo != [] then
        var todo := s.senders[c].todo;
        var k := Min(DATA_SIZE, |todo|);
        Issue(cipher, s, c, TYPE_DATA, todo[..k], now, todo[k..])
      else s
    case SendControl(c, kind, data, now) =>
      if c in s.senders && |data| < TWO_32 && (kind == TYPE_CONNECT || (kind == TYPE_DISCONNECT && |data| == 1)) then
        Issue(cipher, s, c, kind, data, now, s.senders[c].todo)
      else s
    case Net(x) =>
      if x.Submit? then s else s.(net := Scheduler.Apply(cipher, s.net, x))
    case NewReader(c) =>
      s.(receivers := s.receivers + [NewReceiver(c, ToReader(Reading([], [], [])))],
         conns := ConnectionPool.Apply(s.conns, ConnectionPool.Dial(0, c)))
    case Dispatch(accept) =>
      if s.dispatched < |s.net.delivered| then
        var b := s.net.delivered[s.dispatched];
        var c := b.connectionID;
        var s1 := s.(dispatched := s.dispatched + 1);
        if c in Live(s) && Live(s)[c] < |s.receivers| && s.receivers[Live(s)[c]].conn == c then
          var x := s.receivers[Live(s)[c]];
          Update(s1, Live(s)[c], x.(inbox := x.inbox + [b]))
        else if accept then
          s1.(receivers := s.receivers + [NewReceiver(c, ToSocket(Socket([], [], true))).(inbox := [b])],
              conns := ConnectionPool.Apply(s.conns, ConnectionPool.Accept(0, c)))
        else s1
      else s
    case Remove(o) =>
      s.(conns := ConnectionPool.Apply(s.conns, ConnectionPool.Remove(o)))
    case Order(r) =>
      if r < |s.receivers| && s.receivers[r].inbox != [] then
        var x := s.receivers[r];
        var b := x.inbox[0];
        Update(s, r, x.(inbox := x.inbox[1..], arrived := x.arrived + [b], order := Reorder.Receive(x.order, b)))
      else s
    case Read(r, blocks, n) =>
      if r < |s.receivers| && s.receivers[r].sink.ToReader? then
        var x := s.receivers[r];
        var v := x.sink.reading;
        if |v.consumed| + blocks <= |x.order.out| then
          var taken := x.order.out[|v.consumed|..|v.consumed| + blocks];
          if n <= |v.staging + Payloads(taken)| then Update(s, r, x.(sink := ToReader(Serve(v, taken, n)))) else s
        else s
      else s
    case SendOut(r, n, fails) =>
      if r < |s.receivers| && s.receivers[r].sink.ToSocket? then
        var x := s.receivers[r];
        var v := x.sink.socket;
        if |v.consumed| < |x.order.out| then
          var b := x.order.out[|v.consumed|];
          if b.WellFormed() && n <= |b.data| then Update(s, r, x.(sink := ToSocket(Deliver(v, b, n, fails)))) else s
        else s
      else s
  }

  function Run(cipher: Cipher, actions: seq<Action>): State {
    if actions == [] then INIT
    else Apply(cipher, Run(cipher, actions[..|actions| - 1]), actions[|actions| - 1])
  }

  // ---------------------------------------------------------------- invariant

  ghost predicate Numbers(issued: seq<Block>, c: U32) {
    forall i :: 0 <= i < |issued| ==>
      issued[i].connectionID == c && issued[i].blockID == i % TWO_32 && issued[i].WellFormed()
  }

  ghost predicate SenderOk(c: U32, x: Sender) {
    Numbers(x.issued, c) && Payloads(x.issued) + x.todo == x.written
  }

  /** The block was issued by the sender it names, or by one that had its ID before. */
  ghost predicate Issued(senders: map<U32, Sender>, retired: seq<Retired>, b: Block) {
    && b.connectionID in senders
    && (b in senders[b.connectionID].issued
        || exists i :: 0 <= i < |retired| && retired[i].conn == b.connectionID && b in retired[i].sender.issued)
  }

  /** The ID has only ever had one sending object. */
  ghost predicate NeverRestarted(s: State, c: U32) {
    forall i :: 0 <= i < |s.retired| ==> s.retired[i].conn != c
  }

  ghost predicate SinkOk(x: Sink, out: seq<Block>) {
    && x.Consumed() <= out
    && (x.ToReader? ==> x.reading.Faithful())
    && (x.ToSocket? ==> x.socket.Prefix())
  }

  ghost predicate ReceiverOk(submitted: seq<Block>, x: Receiver) {
    && (forall b :: b in x.inbox ==> b in submitted && b.connectionID == x.conn)
    && (forall b :: b in x.arrived ==> b in submitted && b.connectionID == x.conn)
    && x.order == Reorder.Run(x.arrived)
    && SinkOk(x.sink, x.order.out)
  }

  ghost predicate Inv(cipher: Cipher, s: State) {
    && Scheduler.Inv(cipher, s.net)
    && (forall c :: c in s.senders ==> SenderOk(c, s.senders[c]))
    && (forall i :: 0 <= i < |s.retired| ==>
          s.retired[i].conn in s.senders && SenderOk(s.retired[i].conn, s.retired[i].sender))
    && (forall b :: b in s.net.submitted ==> Issued(s.senders, s.retired, b))
    && (forall i :: 0 <= i < |s.receivers| ==> ReceiverOk(s.net.submitted, s.receivers[i]))
  }

  lemma IssueOk(cipher: Cipher, s: State, c: U32, kind: Byte, data: seq<Byte>, now: I64, todo: seq<Byte>)
    requires cipher.Lawful() && Inv(cipher, s) && c in s.senders && |data| < TWO_32
    requires kind == TYPE_DATA || kind == TYPE_CONNECT || (kind == TYPE_DISCONNECT && |data| == 1)
    requires (if kind == TYPE_DATA then data else []) + todo == s.senders[c].todo
    ensures Inv(cipher, Issue(cipher, s, c, kind, data, now, todo))
  {
    hide Scheduler.Inv, ReceiverOk, Payloads;
    var x := s.senders[c];
    var b := Block(kind, c, now, |x.issued| % TWO_32, |data|, data);
    var s' := Issue(cipher, s, c, kind, data, now, todo);
    Scheduler.ApplyInv(cipher, s.net, Scheduler.Submit(b));
    PayloadsSnoc(x.issued, b);
    Assoc(Payloads(x.issued), b.Payload(), todo);
    assert s'.net.submitted == s.net.submitted + [b];
    forall y | y in s'.net.submitted ensures Issued(s'.senders, s'.retired, y) {
      if y != b {
        assert Issued(s.senders, s.retired, y);
      }
    }
    forall i | 0 <= i < |s.receivers| ensures ReceiverOk(s'.net.submitted, s.receivers[i]) {
      ReceiverGrows(s.net.submitted, s'.net.submitted, s.receivers[i]);
    }
  }

  lemma ReceiverGrows(a: seq<Block>, b: seq<Block>, x: Receiver)
    requires ReceiverOk(a, x) && a <= b
    ensures ReceiverOk(b, x)
  {
    hide SinkOk, Reorder.Run;
  }

  lemma NetOk(cipher: Cipher, s: State, a: Scheduler.Action)
    requires cipher.Lawful() && Inv(cipher, s) && !a.Submit?
    ensures Inv(cipher, s.(net := Scheduler.Apply(cipher, s.net, a)))
  {
    hide Scheduler.Inv, ReceiverOk;
    Scheduler.ApplyInv(cipher, s.net, a);
    NetKeepsSubmitted(cipher, s.net, a);
  }

  lemma NetKeepsSubmitted(cipher: Cipher, s: Scheduler.Net, a: Scheduler.Action)
    requires !a.Submit?
    ensures Scheduler.Apply(cipher, s, a).submitted == s.submitted
  {
    hide Scheduler.Put, Parse;
  }

  lemma NewReceiverOk(submitted: seq<Block>, c: U32, sink: Sink)
    requires sink.Consumed() == [] && sink.Output() == []
    requires sink.ToReader? ==> sink.reading.staging == []
    ensures ReceiverOk(submitted, NewReceiver(c, sink))
  {
  }

  lemma OrderOk(submitted: seq<Block>, x: Receiver)
    requires ReceiverOk(submitted, x) && x.inbox != []
    ensures var b := x.inbox[0];
            ReceiverOk(submitted, x.(inbox := x.inbox[1..], arrived := x.arrived + [b],
                                     order := Reorder.Receive(x.order, b)))
  {
    hide Reorder.Receive;
    Reorder.ReceiveExtends(x.order, x.inbox[0]);
    Reorder.RunSnoc(x.arrived, x.inbox[0]);
  }

  lemma ReadOk(submitted: seq<Block>, x: Receiver, blocks: nat, n: nat)
    requires ReceiverOk(submitted, x) && x.sink.ToReader?
    requires |x.sink.reading.consumed| + blocks <= |x.order.out|
    requires var v := x.sink.reading;
             n <= |v.staging + Payloads(x.order.out[|v.consumed|..|v.consumed| + blocks])|
    ensures var v := x.sink.reading;
            ReceiverOk(submitted,
                       x.(sink := ToReader(Serve(v, x.order.out[|v.consumed|..|v.consumed| + blocks], n))))
  {
    hide Payloads, Reorder.Run;
    var v := x.sink.reading;
    ServeFaithful(v, x.order.out[|v.consumed|..|v.consumed| + blocks], n);
  }

  lemma SendOutOk(submitted: seq<Block>, x: Receiver, n: nat, fails: bool)
    requires ReceiverOk(submitted, x) && x.sink.ToSocket?
    requires |x.sink.socket.consumed| < |x.order.out|
    requires var b := x.order.out[|x.sink.socket.consumed|]; b.WellFormed() && n <= |b.data|
    ensures var v := x.sink.socket;
            ReceiverOk(submitted, x.(sink := ToSocket(Deliver(v, x.order.out[|v.consumed|], n, fails))))
  {
    hide Payloads, Reorder.Run;
    DeliverPrefix(x.sink.socket, x.order.out[|x.sink.socket.consumed|], n, fails);
  }

  lemma InboxOk(submitted: seq<Block>, x: Receiver, b: Block)
    requires ReceiverOk(submitted, x) && b in submitted && b.connectionID == x.conn
    ensures ReceiverOk(submitted, x.(inbox := x.inbox + [b]))
  {
    hide SinkOk, Reorder.Run;
  }

  /** The invariant does not look at the dispatch counter or at the pool. */
  lemma AsideOk(cipher: Cipher, s: State, dispatched: nat, conns: ConnectionPool.State)
    requires Inv(cipher, s)
    ensures Inv(cipher, s.(dispatched := dispatched, conns := conns))
  {
    hide Scheduler.Inv, ReceiverOk, SenderOk, Issued;
  }

  lemma AddOk(cipher: Cipher, s: State, x: Receiver)
    requires Inv(cipher, s) && ReceiverOk(s.net.submitted, x)
    ensures Inv(cipher, s.(receivers := s.receivers + [x]))
  {
    hide Scheduler.Inv, ReceiverOk, SenderOk, Issued;
  }

  lemma DispatchOk(cipher: Cipher, s: State, accept: bool)
    requires Inv(cipher, s)
    ensures Inv(cipher, Apply(cipher, s, Dispatch(accept)))
  {
    hide Apply, Inv, ReceiverOk, ConnectionPool.Apply, Live;
    DispatchApplies(cipher, s, accept);
    if s.dispatched < |s.net.delivered| {
      var b := s.net.delivered[s.dispatched];
      DeliveredKnown(cipher, s, s.dispatched);
      var c := b.connectionID;
      var s1 := s.(dispatched := s.dispatched + 1);
      AsideOk(cipher, s, s.dispatched + 1, s.conns);
      if c in Live(s) && Live(s)[c] < |s.receivers| && s.receivers[Live(s)[c]].conn == c {
        ReceiverThere(cipher, s, Live(s)[c]);
        InboxOk(s.net.submitted, s.receivers[Live(s)[c]], b);
        UpdateOk(cipher, s1, Live(s)[c], s.receivers[Live(s)[c]].(inbox := s.receivers[Live(s)[c]].inbox + [b]));
      } else if accept {
        var x := NewReceiver(c, ToSocket(Socket([], [], true)));
        NewReceiverOk(s.net.submitted, c, x.sink);
        InboxOk(s.net.submitted, x, b);
        assert [] + [b] == [b];
        AddOk(cipher, s1, x.(inbox := [b]));
        AsideOk(cipher, s1.(receivers := s.receivers + [x.(inbox := [b])]), s.dispatched + 1,
                ConnectionPool.Apply(s.conns, ConnectionPool.Accept(0, c)));
      }
    }
  }

  lemma DispatchApplies(cipher: Cipher, s: State, accept: bool)
    ensures Apply(cipher, s, Dispatch(accept)) ==
            if s.dispatched < |s.net.delivered| then
              var b := s.net.delivered[s.dispatched];
              var c, s1 := b.connectionID, s.(dispatched := s.dispatched + 1);
              if c in Live(s) && Live(s)[c] < |s.receivers| && s.receivers[Live(s)[c]].conn == c then
                Update(s1, Live(s)[c], s.receivers[Live(s)[c]].(inbox := s.receivers[Live(s)[c]].inbox + [b]))
              else if accept then
                var x := NewReceiver(c, ToSocket(Socket([], [], true))).(inbox := [b]);
                s1.(receivers := s.receivers + [x],
                    conns := ConnectionPool.Apply(s.conns, ConnectionPool.Accept(0, c)))
              else s1
            else s
  {
    hide ConnectionPool.Apply, Live;
  }

  lemma DeliveredKnown(cipher: Cipher, s: State, j: nat)
    requires Inv(cipher, s) && j < |s.net.delivered|
    ensures s.net.delivered[j] in s.net.submitted
  {
  }

  lemma ReceiverThere(cipher: Cipher, s: State, r: nat)
    requires Inv(cipher, s) && r < |s.receivers|
    ensures ReceiverOk(s.net.submitted, s.receivers[r])
  {
    hide Scheduler.Inv, ReceiverOk, SenderOk, Issued;
  }

  lemma PieceOk(cipher: Cipher, s: State, c: U32, now: I64)
    requires cipher.Lawful() && Inv(cipher, s)
    ensures Inv(cipher, Apply(cipher, s, SendPiece(c, now)))
  {
    if c in s.senders && s.senders[c].todo != [] {
      var todo := s.senders[c].todo;
      var k := Min(DATA_SIZE, |todo|);
      SplitAt(todo, k);
      IssueOk(cipher, s, c, TYPE_DATA, todo[..k], now, todo[k..]);
    }
  }

  lemma WriteOk(cipher: Cipher, s: State, c: U32, data: seq<Byte>)
    requires Inv(cipher, s)
    ensures Inv(cipher, Apply(cipher, s, Write(c, data)))
  {
    hide Scheduler.Inv, ReceiverOk, Payloads;
    if c in s.senders && s.senders[c].todo == [] {
      var x := s.senders[c];
      assert Payloads(x.issued) + [] == Payloads(x.issued);
    }
    var s' := Apply(cipher, s, Write(c, data));
    forall b | b in s.net.submitted ensures Issued(s'.senders, s'.retired, b) {
      assert Issued(s.senders, s.retired, b);
    }
  }

  lemma NewSenderOk(cipher: Cipher, s: State, c: U32)
    requires Inv(cipher, s)
    ensures Inv(cipher, Apply(cipher, s, NewSender(c)))
  {
    hide Scheduler.Inv, ReceiverOk;
    var s' := Apply(cipher, s, NewSender(c));
    forall b | b in s.net.submitted ensures Issued(s'.senders, s'.retired, b) {
      assert Issued(s.senders, s.retired, b);
    }
  }

  lemma RestartOk(cipher: Cipher, s: State, c: U32)
    requires Inv(cipher, s)
    ensures Inv(cipher, Apply(cipher, s, Restart(c)))
  {
    hide Scheduler.Inv, ReceiverOk;
    if c in s.senders {
      var s' := Apply(cipher, s, Restart(c));
      assert s'.retired[|s.retired|] == Retired(c, s.senders[c]);
      forall b | b in s.net.submitted ensures Issued(s'.senders, s'.retired, b) {
        assert Issued(s.senders, s.retired, b);
        if i :| 0 <= i < |s.retired| && s.retired[i].conn == b.connectionID && b in s.retired[i].sender.issued {
          assert s'.retired[i] == s.retired[i];
        }
      }
    }
  }

  lemma ControlOk(cipher: Cipher, s: State, c: U32, kind: Byte, data: seq<Byte>, now: I64)
    requires cipher.Lawful() && Inv(cipher, s)
    ensures Inv(cipher, Apply(cipher, s, SendControl(c, kind, data, now)))
  {
    if Apply(cipher, s, SendControl(c, kind, data, now)) != s {
      IssueOk(cipher, s, c, kind, data, now, s.senders[c].todo);
    }
  }

  lemma NewReaderOk(cipher: Cipher, s: State, c: U32)
    requires Inv(cipher, s)
    ensures Inv(cipher, Apply(cipher, s, NewReader(c)))
  {
    hide Scheduler.Inv, ReceiverOk;
    NewReceiverOk(s.net.submitted, c, ToReader(Reading([], [], [])));
  }

  /** Steps of one receiver. */
  lemma ReceiverStepOk(cipher: Cipher, s: State, a: Action)
    requires Inv(cipher, s) && (a.Order? || a.Read? || a.SendOut?)
    ensures Inv(cipher, Apply(cipher, s, a))
  {
    hide Scheduler.Inv, ReceiverOk, Serve, Deliver, Payloads, Reorder.Receive;
    var s' := Apply(cipher, s, a);
    if s' != s {
      var x := s.receivers[a.r];
      if a.Order? {
        OrderOk(s.net.submitted, x);
      } else if a.Read? {
        ReadOk(s.net.submitted, x, a.blocks, a.n);
      } else {
        SendOutOk(s.net.submitted, x, a.n, a.fails);
      }
      UpdateOk(cipher, s, a.r, s'.receivers[a.r]);
    }
  }

  lemma UpdateOk(cipher: Cipher, s: State, r: nat, x: Receiver)
    requires Inv(cipher, s) && r < |s.receivers| && ReceiverOk(s.net.submitted, x)
    ensures Inv(cipher, Update(s, r, x))
  {
    hide Scheduler.Inv, ReceiverOk;
  }

  lemma ApplyInv(cipher: Cipher, s: State, a: Action)
    requires cipher.Lawful() && Inv(cipher, s)
    ensures Inv(cipher, Apply(cipher, s, a))
  {
    hide Inv;
    match a {
      case NewSender(c) => NewSenderOk(cipher, s, c);
      case Restart(c) => RestartOk(cipher, s, c);
      case Write(c, data) => WriteOk(cipher, s, c, data);
      case SendPiece(c, now) => PieceOk(cipher, s, c, now);
      case SendControl(c, kind, data, now) => ControlOk(cipher, s, c, kind, data, now);
      case Net(x) =>
        if !x.Submit? {
          NetOk(cipher, s, x);
        }
      case NewReader(c) => NewReaderOk(cipher, s, c);
      case Dispatch(accept) => DispatchOk(cipher, s, accept);
      case Remove(o) => RemoveOk(cipher, s, o);
      case Order(r) => ReceiverStepOk(cipher, s, a);
      case Read(r, blocks, n) => ReceiverStepOk(cipher, s, a);
      case SendOut(r, n, fails) => ReceiverStepOk(cipher, s, a);
    }
  }

  lemma RemoveOk(cipher: Cipher, s: State, o: nat)
    requires Inv(cipher, s)
    ensures Inv(cipher, Apply(cipher, s, Remove(o)))
  {
    hide Scheduler.Inv, ReceiverOk;
  }

  /** The pool's objects are the receivers, and its map leads to objects with the right ID, so dispatching never misses
      one. */
  ghost predicate LiveOk(s: State) {
    && |s.conns.pools| == 1 && |s.conns.conns| == |s.receivers|
    && (forall i :: 0 <= i < |s.receivers| ==> s.conns.conns[i].pool == 0 && s.conns.conns[i].id == s.receivers[i].conn)
    && (forall c :: c in Live(s) ==> Live(s)[c] < |s.receivers| && s.receivers[Live(s)[c]].conn == c)
  }

  lemma ApplyLive(cipher: Cipher, s: State, a: Action)
    requires LiveOk(s)
    ensures LiveOk(Apply(cipher, s, a))
  {
    match a {
      case Dispatch(accept) => DispatchLive(cipher, s, accept);
      case NewReader(c) => NewReaderLive(cipher, s, c);
      case Remove(o) => RemoveLive(cipher, s, o);
      case _ =>
        hide LiveOk, Apply;
        KeepsLive(cipher, s, a);
        LiveKept(s, Apply(cipher, s, a));
    }
  }

  /** A new receiver is filed under its ID. */
  lemma AddLive(s: State, x: Receiver)
    requires LiveOk(s)
    ensures LiveOk(s.(receivers := s.receivers + [x], conns := ConnectionPool.Add(s.conns, 0, x.conn)))
  {
    var t := s.(receivers := s.receivers + [x], conns := ConnectionPool.Add(s.conns, 0, x.conn));
    assert Live(t) == Live(s)[x.conn := |s.receivers|];
    forall i | 0 <= i < |t.receivers| ensures t.conns.conns[i].pool == 0 && t.conns.conns[i].id == t.receivers[i].conn {
    }
    forall c | c in Live(t) ensures Live(t)[c] < |t.receivers| && t.receivers[Live(t)[c]].conn == c {
      assert c != x.conn ==> c in Live(s);
    }
  }

  lemma NewReaderLive(cipher: Cipher, s: State, c: U32)
    requires LiveOk(s)
    ensures LiveOk(Apply(cipher, s, NewReader(c)))
  {
    AddLive(s, NewReceiver(c, ToReader(Reading([], [], []))));
    hide LiveOk, ConnectionPool.Add;
  }

  lemma DispatchLive(cipher: Cipher, s: State, accept: bool)
    requires LiveOk(s)
    ensures LiveOk(Apply(cipher, s, Dispatch(accept)))
  {
    if s.dispatched < |s.net.delivered| {
      var b := s.net.delivered[s.dispatched];
      var c := b.connectionID;
      var s1 := s.(dispatched := s.dispatched + 1);
      if c in Live(s) {
        LiveKept(s, Apply(cipher, s, Dispatch(accept)));
      } else if accept {
        LiveKept(s, s1);
        AddLive(s1, NewReceiver(c, ToSocket(Socket([], [], true))).(inbox := [b]));
        hide LiveOk, ConnectionPool.Add;
      }
    }
  }

  lemma RemoveLive(cipher: Cipher, s: State, o: nat)
    requires LiveOk(s)
    ensures LiveOk(Apply(cipher, s, Remove(o)))
  {
    var t := Apply(cipher, s, Remove(o));
    assert forall c :: c in Live(t) ==> c in Live(s) && Live(t)[c] == Live(s)[c];
    forall i | 0 <= i < |t.receivers| ensures t.conns.conns[i].pool == 0 && t.conns.conns[i].id == t.receivers[i].conn {
    }
    forall c | c in Live(t) ensures Live(t)[c] < |t.receivers| && t.receivers[Live(t)[c]].conn == c {
    }
  }

  /** Every other step leaves the pool and the objects' IDs alone. */
  lemma KeepsLive(cipher: Cipher, s: State, a: Action)
    requires !a.Dispatch? && !a.NewReader? && !a.Remove?
    ensures SameObjects(s, Apply(cipher, s, a))
  {
    hide Payloads, Serve, Deliver, Reorder.Receive, Scheduler.Apply;
  }

  ghost predicate SameObjects(s: State, t: State) {
    && t.conns == s.conns && |t.receivers| == |s.receivers|
    && forall i :: 0 <= i < |s.receivers| ==> t.receivers[i].conn == s.receivers[i].conn
  }

  lemma LiveKept(s: State, t: State)
    requires LiveOk(s) && SameObjects(s, t)
    ensures LiveOk(t)
  {
    assert Live(t) == Live(s);
    forall i | 0 <= i < |t.receivers| ensures t.conns.conns[i].pool == 0 && t.conns.conns[i].id == t.receivers[i].conn {
    }
    forall c | c in Live(t) ensures Live(t)[c] < |t.receivers| && t.receivers[Live(t)[c]].conn == c {
    }
  }

  /** The connection pool of every end-to-end run makes a run of its own. */
  lemma {:induction false} PoolRun(cipher: Cipher, actions: seq<Action>) returns (steps: seq<ConnectionPool.Action>)
    ensures Run(cipher, actions).conns == ConnectionPool.Run(steps)
  {
    if actions == [] {
      steps := [ConnectionPool.NewPool];
      assert steps[..0] == [];
      assert ConnectionPool.Run(steps) == ConnectionPool.Apply(ConnectionPool.INIT, steps[0]);
      assert ConnectionPool.INIT.pools + [map[]] == [map[]];
    } else {
      var s, a := Run(cipher, actions[..|actions| - 1]), actions[|actions| - 1];
      steps := PoolRun(cipher, actions[..|actions| - 1]);
      assert Run(cipher, actions) == Apply(cipher, s, a);
      hide Run;
      var step := PoolStep(cipher, s, a);
      if step.Some? {
        assert (steps + [step.value])[..|steps|] == steps;
        steps := steps + [step.value];
      }
    }
  }

  lemma PoolStep(cipher: Cipher, s: State, a: Action) returns (step: Option<ConnectionPool.Action>)
    ensures Apply(cipher, s, a).conns ==
            if step.None? then s.conns else ConnectionPool.Apply(s.conns, step.value)
  {
    hide Payloads, Serve, Deliver, Reorder.Receive, Scheduler.Apply, ConnectionPool.Apply;
    step := None;
    match a {
      case NewReader(c) => step := Some(ConnectionPool.Dial(0, c));
      case Remove(o) => step := Some(ConnectionPool.Remove(o));
      case Dispatch(accept) =>
        if Apply(cipher, s, a).conns != s.conns {
          step := Some(ConnectionPool.Accept(0, s.net.delivered[s.dispatched].connectionID));
        }
      case _ =>
    }
  }

  /** So in every end-to-end run without an ID drawn that is in use, the connection counter is the number of connections
      in the map, and the map holds every receiver that has not been removed. */
  lemma {:induction false} Accounted(cipher: Cipher, actions: seq<Action>)
    requires cipher.Lawful() && !Run(cipher, actions).conns.clash
    ensures var s := Run(cipher, actions);
            && s.conns.counter == |Live(s)|
            && |s.conns.conns| == |s.receivers|
            && forall r :: 0 <= r < |s.receivers| && !s.conns.conns[r].gone ==>
                 s.receivers[r].conn in Live(s) && Live(s)[s.receivers[r].conn] == r
  {
    var steps := PoolRun(cipher, actions);
    ConnectionPool.RunExact(steps);
    RunInv(cipher, actions);
    hide Run, ConnectionPool.Run, Inv, Cipher.Lawful;
    var s := Run(cipher, actions);
    assert s.conns.pools[..0] == [];
    assert ConnectionPool.Total(s.conns.pools) == ConnectionPool.Total(s.conns.pools[..0]) + |s.conns.pools[0]|;
    forall r | 0 <= r < |s.receivers| && !s.conns.conns[r].gone
      ensures s.receivers[r].conn in Live(s) && Live(s)[s.receivers[r].conn] == r
    {
      assert s.conns.conns[r].id == s.receivers[r].conn;
    }
  }

  lemma {:induction false} RunInv(cipher: Cipher, actions: seq<Action>)
    requires cipher.Lawful()
    ensures Inv(cipher, Run(cipher, actions)) && LiveOk(Run(cipher, actions))
  {
    if actions != [] {
      var s, a := Run(cipher, actions[..|actions| - 1]), actions[|actions| - 1];
      assert Run(cipher, actions) == Apply(cipher, s, a);
      hide Apply, Inv, LiveOk;
      RunInv(cipher, actions[..|actions| - 1]);
      ApplyInv(cipher, s, a);
      ApplyLive(cipher, s, a);
    }
  }

  // ---------------------------------------------------------------- the theorem

  ghost predicate Within(a: seq<Block>, b: seq<Block>) {
    forall x :: x in a ==> x in b
  }

  lemma NumbersCyclic(issued: seq<Block>, c: U32)
    requires Numbers(issued, c)
    ensures Reorder.Cyclic(issued)
    ensures |issued| <= TWO_32 ==> Reorder.Placed(issued)
  {
    if |issued| <= TWO_32 {
      forall i | 0 <= i < |issued| ensures issued[i].blockID == i {
        assert i % TWO_32 == i;
      }
    }
  }

  /** When only blocks of a list of fewer than 2^32 arrive, an ID stays missing. */
  lemma SomeMissing(issued: seq<Block>, arrived: seq<Block>)
    requires Reorder.Placed(issued) && |issued| < TWO_32 && Within(arrived, issued)
    ensures Reorder.Incomplete(Reorder.Kept(arrived))
  {
    Reorder.KeptSpec(arrived);
    hide Reorder.Kept, Reorder.Placed;
    var last: U32 := Reorder.MAX_ID;
    if last in Reorder.Kept(arrived) {
      PlacedBelow(issued, Reorder.Kept(arrived)[last]);
      assert false;
    }
  }

  lemma PlacedBelow(issued: seq<Block>, b: Block)
    requires Reorder.Placed(issued) && b in issued
    ensures b.blockID < |issued|
  {
  }

  lemma WithinFromList(issued: seq<Block>, arrived: seq<Block>)
    requires Within(arrived, issued)
    ensures Reorder.FromList(arrived, issued)
  {
    Reorder.KeptSpec(arrived);
    hide Reorder.Kept;
  }

  /** Blocks of a list numbered with at most 2^32 IDs come out of the relay as a prefix of that list, if and only if no
      copy of block 0 arrives after all of 2^32; which cannot happen when there are fewer. */
  lemma {:induction false} OrderedPrefix(issued: seq<Block>, c: U32, arrived: seq<Block>)
    requires Numbers(issued, c) && |issued| <= TWO_32
    requires Within(arrived, issued)
    ensures Reorder.Run(arrived).out <= issued <==> !Reorder.Replayed(arrived)
    ensures |issued| < TWO_32 ==> !Reorder.Replayed(arrived)
  {
    hide Reorder.Run, Reorder.Kept, Reorder.Replayed, Reorder.Incomplete, Reorder.Refines, Reorder.Wrapped,
      Reorder.FromList, Reorder.Placed, Numbers, Within;
    NumbersCyclic(issued, c);
    WithinFromList(issued, arrived);
    Reorder.OneListExact(arrived, issued);
    if |issued| < TWO_32 {
      SomeMissing(issued, arrived);
      Reorder.RunStages(arrived);
    }
  }

  lemma AllReceived(issued: seq<Block>, arrived: seq<Block>, received: map<U32, Block>)
    requires Reorder.Placed(issued) && Within(issued, arrived)
    requires forall b :: b in arrived ==> b.blockID in received
    ensures forall i: U32 :: i < |issued| ==> i in received
  {
    forall i: U32 | i < |issued| ensures i in received {
      assert issued[i] in arrived;
    }
  }

  lemma LongestWhole(out: seq<Block>, received: map<U32, Block>, issued: seq<Block>)
    requires Reorder.Longest(out, received) && out <= issued && |issued| <= TWO_32
    requires forall i: U32 :: i < |issued| ==> i in received
    ensures out == issued
  {
  }

  /** And a prefix that comes out is the whole list once all of the list has arrived. */
  lemma {:induction false} OrderedWhole(issued: seq<Block>, c: U32, arrived: seq<Block>)
    requires Numbers(issued, c) && |issued| <= TWO_32
    requires Within(issued, arrived) && Reorder.Run(arrived).out <= issued
    ensures Reorder.Run(arrived).out == issued
  {
    hide Reorder.Run, Reorder.Kept, Reorder.Replayed, Reorder.Longest, Reorder.FromList, Reorder.Placed,
      Numbers, Within;
    NumbersCyclic(issued, c);
    Reorder.OneListExact(arrived, issued);
    Reorder.OutputExact(arrived);
    Reorder.KeptSpec(arrived);
    AllReceived(issued, arrived, Reorder.Kept(arrived));
    LongestWhole(Reorder.Run(arrived).out, Reorder.Kept(arrived), issued);
  }

  /** k is a sending object that has this ID, or had it. */
  ghost predicate SendsAs(s: State, c: U32, k: Sender) {
    || (c in s.senders && s.senders[c] == k)
    || exists i :: 0 <= i < |s.retired| && s.retired[i] == Retired(c, k)
  }

  /** A receiving connection after a run, and one of the sending objects of its ID. */
  lemma {:induction false} ReceiverAfter(cipher: Cipher, actions: seq<Action>, r: nat, k: Sender)
    requires cipher.Lawful() && r < |Run(cipher, actions).receivers|
    requires SendsAs(Run(cipher, actions), Run(cipher, actions).receivers[r].conn, k)
    ensures var s := Run(cipher, actions); var x := s.receivers[r];
            && SinkOk(x.sink, x.order.out) && SenderOk(x.conn, k) && x.order == Reorder.Run(x.arrived)
            && (NeverRestarted(s, x.conn) ==> Within(x.arrived, k.issued))
  {
    hide Scheduler.Inv, SinkOk, SenderOk, Run, Reorder.Run;
    RunInv(cipher, actions);
    var s := Run(cipher, actions);
    var x := s.receivers[r];
    assert ReceiverOk(s.net.submitted, x);
    assert forall b :: b in x.arrived ==> Issued(s.senders, s.retired, b);
  }

  lemma SenderNumbers(c: U32, x: Sender)
    requires SenderOk(c, x)
    ensures Numbers(x.issued, c) && Payloads(x.issued) <= x.written
  {
  }

  /** In every run, with any number of tunnels and any loss, repetition and reordering, with any number of blocks and
      any number of sending objects for an ID, and for each of those objects: the blocks come out of a receiving
      connection as a prefix of those the object numbered, if and only if at every moment the copies that counted were
      the object's, in the lap of the 2^32 IDs they belong to; and then the bytes that leave the connection are a prefix
      of the bytes written to the object. */
  lemma {:induction false} PrefixDelivery(cipher: Cipher, actions: seq<Action>, r: nat, k: Sender)
    requires cipher.Lawful() && r < |Run(cipher, actions).receivers|
    requires SendsAs(Run(cipher, actions), Run(cipher, actions).receivers[r].conn, k)
    ensures var x := Run(cipher, actions).receivers[r];
            && (x.order.out <= k.issued <==> Reorder.OnCourse(x.arrived, k.issued))
            && (x.order.out <= k.issued ==> x.sink.Output() <= k.written)
  {
    hide Run, Payloads, Reorder.Run, Reorder.OnCourse, Numbers, Cipher.Lawful;
    ReceiverAfter(cipher, actions, r, k);
    var x := Run(cipher, actions).receivers[r];
    SenderNumbers(x.conn, k);
    NumbersCyclic(k.issued, x.conn);
    Reorder.LapsExact(x.arrived, k.issued);
    if x.order.out <= k.issued {
      OutputPrefix(x.sink, x.order.out);
      PayloadsPrefix(x.order.out, k.issued);
    }
  }

  /** For an object that numbered at most 2^32 blocks: if and only if block 0 was not replayed after all IDs and every
      copy that counts and has been passed by is the object's. */
  lemma {:induction false} PrefixOfObject(cipher: Cipher, actions: seq<Action>, r: nat, k: Sender)
    requires cipher.Lawful() && r < |Run(cipher, actions).receivers|
    requires SendsAs(Run(cipher, actions), Run(cipher, actions).receivers[r].conn, k) && |k.issued| <= TWO_32
    ensures var x := Run(cipher, actions).receivers[r];
            x.order.out <= k.issued <==> !Reorder.Replayed(x.arrived) && Reorder.FromList(x.arrived, k.issued)
  {
    hide Run, Payloads, Reorder.Run, Reorder.Replayed, Reorder.FromList, Numbers, Cipher.Lawful;
    ReceiverAfter(cipher, actions, r, k);
    var x := Run(cipher, actions).receivers[r];
    SenderNumbers(x.conn, k);
    NumbersCyclic(k.issued, x.conn);
    Reorder.OneListExact(x.arrived, k.issued);
  }

  /** And when it is the only object its ID has had: unless it numbered 2^32 blocks and block 0 was replayed after
      all of them, the bytes that leave the connection are a prefix of the bytes written. */
  lemma {:induction false} SoleObject(cipher: Cipher, actions: seq<Action>, r: nat)
    requires cipher.Lawful() && r < |Run(cipher, actions).receivers|
    ensures var s := Run(cipher, actions); var x := s.receivers[r];
            if x.conn !in s.senders then x.sink.Output() == []
            else NeverRestarted(s, x.conn) && |s.senders[x.conn].issued| <= TWO_32 ==>
              && (x.order.out <= s.senders[x.conn].issued <==> !Reorder.Replayed(x.arrived))
              && (|s.senders[x.conn].issued| < TWO_32 ==> !Reorder.Replayed(x.arrived))
              && (!Reorder.Replayed(x.arrived) ==> x.sink.Output() <= s.senders[x.conn].written)
  {
    hide Run, Payloads, Reorder.Run, Reorder.Replayed, Reorder.OnCourse, Numbers, Within, Cipher.Lawful;
    var s := Run(cipher, actions);
    var x := s.receivers[r];
    if x.conn !in s.senders {
      NoneSent(cipher, actions, r);
    } else if NeverRestarted(s, x.conn) && |s.senders[x.conn].issued| <= TWO_32 {
      var k := s.senders[x.conn];
      ReceiverAfter(cipher, actions, r, k);
      SenderNumbers(x.conn, k);
      OrderedPrefix(k.issued, x.conn, x.arrived);
      PrefixDelivery(cipher, actions, r, k);
    }
  }

  lemma {:induction false} NoneSent(cipher: Cipher, actions: seq<Action>, r: nat)
    requires cipher.Lawful() && r < |Run(cipher, actions).receivers|
    requires Run(cipher, actions).receivers[r].conn !in Run(cipher, actions).senders
    ensures Run(cipher, actions).receivers[r].sink.Output() == []
  {
    hide Scheduler.Inv, SinkOk, SenderOk, Run, Reorder.Run, Payloads;
    RunInv(cipher, actions);
    var s := Run(cipher, actions);
    var x := s.receivers[r];
    assert ReceiverOk(s.net.submitted, x);
    assert forall b :: b in x.arrived ==> Issued(s.senders, s.retired, b);
    NoneIssued(s.senders, s.retired, x.conn, x.arrived);
    Reorder.StartsOver();
    NoPayload();
    OutputPrefix(x.sink, x.order.out);
  }

  lemma NoneIssued(senders: map<U32, Sender>, retired: seq<Retired>, c: U32, arrived: seq<Block>)
    requires c !in senders
    requires forall b :: b in arrived ==> b.connectionID == c && Issued(senders, retired, b)
    ensures arrived == []
  {
    hide Issued;
    if arrived != [] {
      IssuedBySender(senders, retired, arrived[0]);
      assert false;
    }
  }

  lemma IssuedBySender(senders: map<U32, Sender>, retired: seq<Retired>, b: Block)
    requires Issued(senders, retired, b)
    ensures b.connectionID in senders
  {
  }

  lemma NoPayload()
    ensures Payloads([]) == []
  {
  }

  lemma OutputPrefix(x: Sink, out: seq<Block>)
    requires SinkOk(x, out)
    ensures x.Output() <= Payloads(out)
  {
    PayloadsPrefix(x.Consumed(), out);
  }

  /** When a reader whose blocks came out in one object's order holds no more bytes and has consumed a shutdown that
      ends its stream, it has returned every byte that the object numbered before that shutdown. */
  lemma {:induction false} EndOfStream(cipher: Cipher, actions: seq<Action>, r: nat, k: Sender, n: nat)
    requires cipher.Lawful() && r < |Run(cipher, actions).receivers|
    requires var s := Run(cipher, actions); var x := s.receivers[r];
             SendsAs(s, x.conn, k) && Reorder.OnCourse(x.arrived, k.issued) && x.sink.ToReader?
    requires var v := Run(cipher, actions).receivers[r].sink.reading;
             n < |v.consumed| && v.consumed[n].EndsStream() && v.staging == []
    ensures var v := Run(cipher, actions).receivers[r].sink.reading;
            && n < |k.issued| && k.issued[n] == v.consumed[n]
            && Payloads(k.issued[..n]) <= v.returned
  {
    hide Run, Payloads, Reorder.OnCourse, Reorder.Run, Cipher.Lawful;
    ReceiverAfter(cipher, actions, r, k);
    PrefixDelivery(cipher, actions, r, k);
    var v := Run(cipher, actions).receivers[r].sink.reading;
    assert v.consumed[..n] == k.issued[..n];
    PayloadsPrefix(v.consumed[..n], v.consumed);
    assert v.returned + [] == v.returned;
  }

  /** Nothing is withheld: once every block the object numbered has arrived and been consumed, a reader has returned
      every byte written to it, except those it still holds, and a socket that still takes bytes has accepted every one.
      */
  lemma {:induction false} NothingWithheld(cipher: Cipher, actions: seq<Action>, r: nat, k: Sender)
    requires cipher.Lawful() && r < |Run(cipher, actions).receivers|
    requires var s := Run(cipher, actions); var x := s.receivers[r];
             SendsAs(s, x.conn, k) && Reorder.OnCourse(x.arrived, k.issued) && |k.issued| <= TWO_32
    requires var x := Run(cipher, actions).receivers[r];
             k.todo == [] && Within(k.issued, x.arrived) && |x.sink.Consumed()| == |x.order.out|
    ensures match Run(cipher, actions).receivers[r].sink
            case ToReader(v) => v.returned + v.staging == k.written
            case ToSocket(v) => v.writable ==> v.accepted == k.written
  {
    hide Run, Payloads, Reorder.OnCourse, Reorder.Run, Within, Numbers, Cipher.Lawful;
    ReceiverAfter(cipher, actions, r, k);
    PrefixDelivery(cipher, actions, r, k);
    SenderNumbers(Run(cipher, actions).receivers[r].conn, k);
    var x := Run(cipher, actions).receivers[r];
    OrderedWhole(k.issued, x.conn, x.arrived);
    assert x.sink.Consumed() == k.issued;
    assert Payloads(k.issued) + [] == Payloads(k.issued);
  }
}
