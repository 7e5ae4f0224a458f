/** connection_pool/pool.go, recvRelay: which receiver every delivered block goes to, in every end-to-end run. */
module Dispatching {
  import opened Bytes
  import opened Blocks
  import opened Records
  import opened EndToEnd
  import Inbound
  import Outbound
  import Reorder
  import Scheduler
  import ConnectionPool

  /** The receiver that gets the next delivered block: the one filed under its ID; a new one, if there is none and the
      pool accepts connections; or nobody. */
  function Recipient(s: State, accept: bool): Option<nat>
    requires s.dispatched < |s.net.delivered|
  {
    var c := s.net.delivered[s.dispatched].connectionID;
    if c in Live(s) then Some(Live(s)[c]) else if accept then Some(|s.receivers|) else None
  }

  /** For every block dispatched in a run, who got it. */
  function Route(cipher: Cipher, actions: seq<Action>): seq<Option<nat>> {
    if actions == [] then []
    else
      var s, a := Run(cipher, actions[..|actions| - 1]), actions[|actions| - 1];
      Route(cipher, actions[..|actions| - 1])
      + if a.Dispatch? && s.dispatched < |s.net.delivered| then [Recipient(s, a.accept)] else []
  }

  /** The blocks that went to receiver r, in order. */
  function Pick(bs: seq<Block>, route: seq<Option<nat>>, r: nat): seq<Block>
    requires |bs| == |route|
  {
    if bs == [] then []
    else
      var k := |bs| - 1;
      Pick(bs[..k], route[..k], r) + if route[k] == Some(r) then [bs[k]] else []
  }

  lemma PickSnoc(bs: seq<Block>, route: seq<Option<nat>>, b: Block, to: Option<nat>, r: nat)
    requires |bs| == |route|
    ensures Pick(bs + [b], route + [to], r) == Pick(bs, route, r) + if to == Some(r) then [b] else []
  {
    assert (bs + [b])[..|bs|] == bs && (route + [to])[..|route|] == route;
  }

  lemma {:induction false} PickNone(bs: seq<Block>, route: seq<Option<nat>>, r: nat)
    requires |bs| == |route| && Some(r) !in route
    ensures Pick(bs, route, r) == []
  {
    if bs != [] {
      var k := |bs| - 1;
      assert route[k] in route;
      assert forall x :: x in route[..k] ==> x in route;
      PickNone(bs[..k], route[..k], r);
    }
  }

  lemma {:induction false} PickHas(bs: seq<Block>, route: seq<Option<nat>>, r: nat, j: nat)
    requires |bs| == |route| && j < |bs| && route[j] == Some(r)
    ensures bs[j] in Pick(bs, route, r)
  {
    if j < |bs| - 1 {
      PickHas(bs[..|bs| - 1], route[..|bs| - 1], r, j);
    }
  }

  // ---------------------------------------------------------------- every block goes where it should

  /** What each receiver has been given is what was routed to it. */
  ghost predicate Dealt(s: State, route: seq<Option<nat>>) {
    && |route| == s.dispatched <= |s.net.delivered|
    && (forall r: nat :: Some(r) in route ==> r < |s.receivers|)
    && (forall r: nat :: r < |s.receivers| ==>
          s.receivers[r].arrived + s.receivers[r].inbox == Pick(s.net.delivered[..s.dispatched], route, r))
  }

  /** A step that dispatches nothing. */
  lemma QuietDealt(s: State, t: State, route: seq<Option<nat>>)
    requires Dealt(s, route)
    requires t.dispatched == s.dispatched && s.net.delivered <= t.net.delivered && |t.receivers| == |s.receivers|
    requires forall r :: 0 <= r < |s.receivers| ==>
               t.receivers[r].arrived + t.receivers[r].inbox == s.receivers[r].arrived + s.receivers[r].inbox
    ensures Dealt(t, route)
  {
    assert t.net.delivered[..t.dispatched] == s.net.delivered[..s.dispatched];
    hide Pick;
  }

  lemma DeliveredGrows(c: Cipher, s: Scheduler.Net, a: Scheduler.Action)
    ensures s.delivered <= Scheduler.Apply(c, s, a).delivered
  {
    hide Scheduler.Put, Scheduler.Next;
  }

  lemma QuietStep(cipher: Cipher, s: State, a: Action, route: seq<Option<nat>>)
    requires Dealt(s, route) && !a.Dispatch? && !a.NewReader?
    ensures Dealt(Apply(cipher, s, a), route)
  {
    hide Pick, Dealt, Payloads, Inbound.Serve, Outbound.Deliver, Reorder.Receive, Scheduler.Apply, ConnectionPool.Apply;
    var t := Apply(cipher, s, a);
    if a.Net? {
      DeliveredGrows(cipher, s.net, a.a);
    } else if a.SendPiece? || a.SendControl? {
      IssueDelivered(cipher, s, a);
    } else if a.Order? && a.r < |s.receivers| && s.receivers[a.r].inbox != [] {
      OrderSame(s.receivers[a.r].arrived, s.receivers[a.r].inbox);
    }
    QuietDealt(s, t, route);
  }

  lemma IssueDelivered(cipher: Cipher, s: State, a: Action)
    requires a.SendPiece? || a.SendControl?
    ensures var t := Apply(cipher, s, a);
            s.net.delivered <= t.net.delivered && t.receivers == s.receivers && t.dispatched == s.dispatched
  {
  }

  lemma OrderSame(arrived: seq<Block>, inbox: seq<Block>)
    requires inbox != []
    ensures arrived + [inbox[0]] + inbox[1..] == arrived + inbox
  {
  }

  lemma NewReaderStep(cipher: Cipher, s: State, c: U32, route: seq<Option<nat>>)
    requires Dealt(s, route)
    ensures Dealt(Apply(cipher, s, NewReader(c)), route)
  {
    var t := Apply(cipher, s, NewReader(c));
    PickNone(s.net.delivered[..s.dispatched], route, |s.receivers|);
    hide Pick, ConnectionPool.Apply;
    assert t.receivers[|s.receivers|].arrived + t.receivers[|s.receivers|].inbox == [];
    forall r: nat | r < |t.receivers|
      ensures t.receivers[r].arrived + t.receivers[r].inbox == Pick(t.net.delivered[..t.dispatched], route, r)
    {
    }
  }

  lemma DispatchStep(cipher: Cipher, s: State, accept: bool, route: seq<Option<nat>>)
    requires Dealt(s, route) && LiveOk(s) && s.dispatched < |s.net.delivered|
    ensures Dealt(Apply(cipher, s, Dispatch(accept)), route + [Recipient(s, accept)])
  {
    var t, to := Apply(cipher, s, Dispatch(accept)), Recipient(s, accept);
    var b, done := s.net.delivered[s.dispatched], s.net.delivered[..s.dispatched];
    assert t.net.delivered[..t.dispatched] == done + [b];
    PickNone(done, route, |s.receivers|);
    forall r: nat | r < |t.receivers|
      ensures t.receivers[r].arrived + t.receivers[r].inbox == Pick(done + [b], route + [to], r)
    {
      PickSnoc(done, route, b, to, r);
      hide Pick, ConnectionPool.Apply;
      if r < |s.receivers| {
        Assoc(s.receivers[r].arrived, s.receivers[r].inbox, [b]);
        assert Pick(done, route, r) + [] == Pick(done, route, r);
      } else {
        assert [] + [b] == [b];
      }
    }
    hide Pick, ConnectionPool.Apply;
    assert forall x: nat :: Some(x) in route + [to] ==> Some(x) in route || Some(x) == to;
  }

  /** In every run, every receiver has been given exactly the delivered blocks routed to it, in the order of their
      delivery: those dispatched while it was filed under their ID, and the one it was made for. */
  lemma {:induction false} DispatchExact(cipher: Cipher, actions: seq<Action>)
    requires cipher.Lawful()
    ensures Dealt(Run(cipher, actions), Route(cipher, actions))
  {
    if actions != [] {
      var init, a := actions[..|actions| - 1], actions[|actions| - 1];
      var s, route := Run(cipher, init), Route(cipher, init);
      RouteStep(cipher, actions);
      hide Run, Route, Dealt, Inv, LiveOk, Cipher.Lawful;
      DispatchExact(cipher, init);
      RunInv(cipher, init);
      assert route + [] == route;
      if a.Dispatch? {
        if s.dispatched < |s.net.delivered| {
          DispatchStep(cipher, s, a.accept, route);
        }
      } else if a.NewReader? {
        NewReaderStep(cipher, s, a.c, route);
      } else {
        QuietStep(cipher, s, a, route);
      }
    }
  }

  /** And for every dispatched block there is the step at which its recipient was looked up; nobody got it only if no
      receiver was filed under its ID and the pool did not accept. */
  lemma {:induction false} RouteWhy(cipher: Cipher, actions: seq<Action>, j: nat) returns (m: nat)
    requires cipher.Lawful() && j < |Route(cipher, actions)|
    ensures m < |actions| && actions[m].Dispatch?
    ensures var s := Run(cipher, actions[..m]);
            && s.dispatched == j < |s.net.delivered|
            && Route(cipher, actions)[j] == Recipient(s, actions[m].accept)
            && s.net.delivered <= Run(cipher, actions).net.delivered
  {
    var k := |actions| - 1;
    var init := actions[..k];
    DispatchExact(cipher, init);
    if j < |Route(cipher, init)| {
      m := RouteWhy(cipher, init, j);
      assert init[..m] == actions[..m];
      DeliveredStays(cipher, Run(cipher, init), actions[k]);
    } else {
      m := k;
      DeliveredStays(cipher, Run(cipher, init), actions[k]);
    }
  }

  lemma DeliveredStays(cipher: Cipher, s: State, a: Action)
    ensures s.net.delivered <= Apply(cipher, s, a).net.delivered && s.dispatched <= Apply(cipher, s, a).dispatched
  {
    hide Payloads, Inbound.Serve, Outbound.Deliver, Reorder.Receive, Scheduler.Apply, ConnectionPool.Apply;
    if a.Net? {
      DeliveredGrows(cipher, s.net, a.a);
    } else if a.SendPiece? || a.SendControl? {
      IssueDelivered(cipher, s, a);
    }
  }

  // ---------------------------------------------------------------- since it was filed

  /** The pool's map leads from the receiver's ID to the receiver. */
  ghost predicate Filed(s: State, r: nat) {
    r < |s.receivers| && s.receivers[r].conn in Live(s) && Live(s)[s.receivers[r].conn] == r
  }

  /** It has done so ever since step m. */
  ghost predicate FiledSince(cipher: Cipher, actions: seq<Action>, m: nat, r: nat) {
    m <= |actions| && forall k :: m <= k <= |actions| ==> Filed(Run(cipher, actions[..k]), r)
  }

  lemma FiledGets(s: State, accept: bool, r: nat)
    requires LiveOk(s) && Filed(s, r) && s.dispatched < |s.net.delivered|
    ensures Recipient(s, accept) == Some(r) <==>
            s.net.delivered[s.dispatched].connectionID == s.receivers[r].conn
  {
  }

  lemma ConnsStay(cipher: Cipher, s: State, a: Action)
    ensures var t := Apply(cipher, s, a);
            && |s.receivers| <= |t.receivers|
            && forall r :: 0 <= r < |s.receivers| ==> t.receivers[r].conn == s.receivers[r].conn
  {
    hide Payloads, Inbound.Serve, Outbound.Deliver, Reorder.Receive, Scheduler.Apply, ConnectionPool.Apply;
  }

  /** Of the blocks dispatched from some number on, r got those of its ID and no other. */
  ghost predicate GivenSince(s: State, route: seq<Option<nat>>, r: nat, from: nat) {
    && |route| == s.dispatched <= |s.net.delivered| && r < |s.receivers|
    && forall j :: from <= j < s.dispatched ==>
         (route[j] == Some(r) <==> s.net.delivered[j].connectionID == s.receivers[r].conn)
  }

  /** In every run, a receiver that has been filed since some step was given every block of its ID dispatched since, and
      no other. */
  lemma {:induction false} AllSinceFiled(cipher: Cipher, actions: seq<Action>, m: nat, r: nat)
    requires cipher.Lawful() && FiledSince(cipher, actions, m, r)
    ensures var s, route := Run(cipher, actions), Route(cipher, actions);
            Dealt(s, route) && GivenSince(s, route, r, Run(cipher, actions[..m]).dispatched)
  {
    assert m <= |actions|;
    hide Run, Apply, Route, Dealt, Pick, Inv, LiveOk, FiledSince, Cipher.Lawful, Recipient, GivenSince;
    DispatchExact(cipher, actions);
    FiledAt(cipher, actions, m, r, |actions|);
    assert actions[..|actions|] == actions;
    DealtCounts(Run(cipher, actions), Route(cipher, actions));
    NoneSince(Run(cipher, actions), Route(cipher, actions), r);
    if m < |actions| {
      var k := |actions| - 1;
      var init, a := actions[..k], actions[k];
      assert init[..m] == actions[..m];
      FiledInit(cipher, actions, m, r);
      AllSinceFiled(cipher, init, m, r);
      FiledAt(cipher, actions, m, r, k);
      RouteStep(cipher, actions);
      RunInv(cipher, init);
      DealtCounts(Run(cipher, init), Route(cipher, init));
      SinceStep(Run(cipher, init), Run(cipher, actions), a, Route(cipher, init), Route(cipher, actions), r,
                Run(cipher, actions[..m]).dispatched);
    }
  }

  lemma {:induction false} FiledAt(cipher: Cipher, actions: seq<Action>, m: nat, r: nat, k: nat)
    requires FiledSince(cipher, actions, m, r) && m <= k <= |actions|
    ensures Filed(Run(cipher, actions[..k]), r)
  {
  }

  lemma NoneSince(s: State, route: seq<Option<nat>>, r: nat)
    requires |route| == s.dispatched <= |s.net.delivered| && r < |s.receivers|
    ensures GivenSince(s, route, r, s.dispatched)
  {
  }

  lemma SinceStep(s: State, t: State, a: Action, route: seq<Option<nat>>, more: seq<Option<nat>>, r: nat, from: nat)
    requires LiveOk(s) && Filed(s, r)
    requires GivenSince(s, route, r, from) && |more| == t.dispatched
    requires more == route + if a.Dispatch? && s.dispatched < |s.net.delivered| then [Recipient(s, a.accept)] else []
    requires s.net.delivered <= t.net.delivered && r < |t.receivers| && t.receivers[r].conn == s.receivers[r].conn
    ensures GivenSince(t, more, r, from)
  {
    hide LiveOk, Recipient;
    if a.Dispatch? && s.dispatched < |s.net.delivered| {
      FiledGets(s, a.accept, r);
    }
  }

  lemma DealtCounts(s: State, route: seq<Option<nat>>)
    requires Dealt(s, route)
    ensures |route| == s.dispatched <= |s.net.delivered|
  {
  }

  lemma {:induction false} RouteStep(cipher: Cipher, actions: seq<Action>)
    requires actions != []
    ensures var s, t, a := Run(cipher, actions[..|actions| - 1]), Run(cipher, actions), actions[|actions| - 1];
            && t == Apply(cipher, s, a)
            && Route(cipher, actions) ==
                 Route(cipher, actions[..|actions| - 1])
                 + (if a.Dispatch? && s.dispatched < |s.net.delivered| then [Recipient(s, a.accept)] else [])
            && s.net.delivered <= t.net.delivered
            && |s.receivers| <= |t.receivers|
            && forall r :: 0 <= r < |s.receivers| ==> t.receivers[r].conn == s.receivers[r].conn
  {
    hide Apply, Recipient;
    RunStep(cipher, actions);
    var s, a := Run(cipher, actions[..|actions| - 1]), actions[|actions| - 1];
    hide Run;
    DeliveredStays(cipher, s, a);
    ConnsStay(cipher, s, a);
  }

  lemma {:induction false} RunStep(cipher: Cipher, actions: seq<Action>)
    requires actions != []
    ensures Run(cipher, actions) == Apply(cipher, Run(cipher, actions[..|actions| - 1]), actions[|actions| - 1])
  {
    hide Apply;
  }

  lemma {:induction false} FiledInit(cipher: Cipher, actions: seq<Action>, m: nat, r: nat)
    requires FiledSince(cipher, actions, m, r) && m < |actions|
    ensures FiledSince(cipher, actions[..|actions| - 1], m, r)
  {
    var init := actions[..|actions| - 1];
    forall k | m <= k <= |init| ensures Filed(Run(cipher, init[..k]), r) {
      assert init[..k] == actions[..k];
    }
  }

  lemma GoneStays(cipher: Cipher, s: State, a: Action, r: nat)
    requires LiveOk(s) && r < |s.receivers|
    ensures var t := Apply(cipher, s, a);
            && (s.conns.clash ==> t.conns.clash)
            && r < |t.conns.conns| && (s.conns.conns[r].gone ==> t.conns.conns[r].gone)
  {
    hide Payloads, Inbound.Serve, Outbound.Deliver, Reorder.Receive, Scheduler.Apply;
  }

  /** Without an ID drawn that is in use, a receiver that has not been removed has been filed ever since it was made. */
  lemma {:induction false} FiledUnlessGone(cipher: Cipher, actions: seq<Action>, m: nat, r: nat)
    requires cipher.Lawful() && m <= |actions| && r < |Run(cipher, actions[..m]).receivers|
    requires !Run(cipher, actions).conns.clash
    requires r < |Run(cipher, actions).conns.conns| && !Run(cipher, actions).conns.conns[r].gone
    ensures FiledSince(cipher, actions, m, r)
    decreases |actions|
  {
    hide Run, Apply, Inv, Cipher.Lawful, Filed;
    FiledNow(cipher, actions, m, r);
    assert actions[..|actions|] == actions;
    if m < |actions| {
      var k := |actions| - 1;
      var init := actions[..k];
      assert forall i :: 0 <= i <= k ==> init[..i] == actions[..i];
      RouteStep(cipher, actions);
      Grown(cipher, init, m, r);
      RunInv(cipher, init);
      GoneStays(cipher, Run(cipher, init), actions[k], r);
      FiledUnlessGone(cipher, init, m, r);
      forall i | m <= i <= |actions| ensures Filed(Run(cipher, actions[..i]), r) {
        if i <= k {
          FiledAt(cipher, init, m, r, i);
        }
      }
    }
  }

  lemma {:induction false} FiledNow(cipher: Cipher, actions: seq<Action>, m: nat, r: nat)
    requires cipher.Lawful() && m <= |actions| && r < |Run(cipher, actions[..m]).receivers|
    requires !Run(cipher, actions).conns.clash
    requires r < |Run(cipher, actions).conns.conns| && !Run(cipher, actions).conns.conns[r].gone
    ensures Filed(Run(cipher, actions), r)
  {
    hide Run, Cipher.Lawful;
    Grown(cipher, actions, m, r);
    Accounted(cipher, actions);
  }

  lemma {:induction false} Grown(cipher: Cipher, actions: seq<Action>, m: nat, r: nat)
    requires m <= |actions| && r < |Run(cipher, actions[..m]).receivers|
    ensures r < |Run(cipher, actions).receivers|
    ensures Run(cipher, actions).receivers[r].conn == Run(cipher, actions[..m]).receivers[r].conn
  {
    hide Run, Apply;
    assert actions[..|actions|] == actions;
    if m < |actions| {
      var k := |actions| - 1;
      assert actions[..k][..m] == actions[..m];
      RunStep(cipher, actions);
      Grown(cipher, actions[..k], m, r);
      ConnsStay(cipher, Run(cipher, actions[..k]), actions[k]);
    }
  }

  /** Nothing is withheld between the tunnels and the caller: if a receiver has been filed since some step, every block
      of an object was delivered and dispatched since, and the receiver has ordered and consumed what it was given, then
      a reader has returned every byte written to the object, except those it still holds, and a socket that still takes
      bytes has accepted every one. */
  lemma {:induction false} DeliveredComesOut(cipher: Cipher, actions: seq<Action>, m: nat, r: nat, k: Sender)
    requires cipher.Lawful() && FiledSince(cipher, actions, m, r)
    requires var s := Run(cipher, actions);
             && r < |s.receivers| && SendsAs(s, s.receivers[r].conn, k) && |k.issued| <= TWO_32 && k.todo == []
             && Reorder.OnCourse(s.receivers[r].arrived, k.issued)
    requires var s, from := Run(cipher, actions), Run(cipher, actions[..m]).dispatched;
             && from <= s.dispatched <= |s.net.delivered|
             && Within(k.issued, s.net.delivered[from..s.dispatched])
             && s.receivers[r].inbox == []
             && |s.receivers[r].sink.Consumed()| == |s.receivers[r].order.out|
    ensures match Run(cipher, actions).receivers[r].sink
            case ToReader(v) => v.returned + v.staging == k.written
            case ToSocket(v) => v.writable ==> v.accepted == k.written
  {
    assert m <= |actions|;
    hide Run, Route, Pick, Reorder.OnCourse, FiledSince, Cipher.Lawful, SendsAs, Within;
    var s, route, from := Run(cipher, actions), Route(cipher, actions), Run(cipher, actions[..m]).dispatched;
    AllSinceFiled(cipher, actions, m, r);
    var x := s.receivers[r];
    assert x.arrived + x.inbox == x.arrived;
    ReceiverAfter(cipher, actions, r, k);
    NumbersOf(x.conn, k);
    GivenAll(k.issued, x.conn, s.net.delivered[..s.dispatched], route, r, from, x.arrived,
             s.net.delivered[from..s.dispatched]);
    EndToEnd.NothingWithheld(cipher, actions, r, k);
  }

  lemma NumbersOf(c: U32, k: Sender)
    requires SenderOk(c, k)
    ensures forall b :: b in k.issued ==> b.connectionID == c
  {
  }

  /** All of the ID's blocks among the latest went to r. */
  lemma GivenAll(issued: seq<Block>, c: U32, bs: seq<Block>, route: seq<Option<nat>>, r: nat, from: nat,
                 arrived: seq<Block>, latest: seq<Block>)
    requires |bs| == |route| && from <= |bs| && latest == bs[from..] && arrived == Pick(bs, route, r)
    requires forall b :: b in issued ==> b.connectionID == c
    requires forall j :: from <= j < |bs| ==> (route[j] == Some(r) <==> bs[j].connectionID == c)
    requires Within(issued, latest)
    ensures Within(issued, arrived)
  {
    forall b | b in issued ensures b in arrived {
      assert b in latest;
      var i :| 0 <= i < |latest| && latest[i] == b;
      PickHas(bs, route, r, from + i);
    }
  }
}
