/** What can become of a block in tunnel_pool/tunnel.go: exactly when it can still be lost, and exactly when it can
    arrive more than once. */
module Fates {
  import opened Bytes
  import opened Blocks
  import opened Records
  import opened Scheduler

  // ---------------------------------------------------------------- continuing a run

  function Then(c: Cipher, s: Net, more: seq<Action>): Net
    decreases |more|
  {
    if more == [] then s else Then(c, Apply(c, s, more[0]), more[1..])
  }

  lemma {:induction false} RunThen(c: Cipher, actions: seq<Action>, more: seq<Action>)
    ensures Run(c, actions + more) == Then(c, Run(c, actions), more)
    decreases |more|
  {
    if more == [] {
      assert actions + more == actions;
    } else {
      var next := actions + [more[0]];
      assert next[..|actions|] == actions;
      assert actions + more == next + more[1..];
      RunThen(c, next, more[1..]);
    }
  }

  lemma {:induction false} ThenAppend(c: Cipher, s: Net, x: seq<Action>, y: seq<Action>)
    ensures Then(c, s, x + y) == Then(c, Then(c, s, x), y)
    decreases |x|
  {
    if x == [] {
      assert x + y == y;
    } else {
      assert (x + y)[1..] == x[1..] + y;
      ThenAppend(c, Apply(c, s, x[0]), x[1..], y);
    }
  }

  lemma ThenTwo(c: Cipher, s: Net, a: Action, a': Action, rest: seq<Action>)
    ensures Then(c, s, [a, a'] + rest) == Then(c, Apply(c, Apply(c, s, a), a'), rest)
  {
    hide Apply;
    var more := [a, a'] + rest;
    assert more[1..] == [a'] + rest && more[1..][1..] == rest;
    assert Then(c, s, more) == Then(c, Apply(c, s, a), more[1..]);
  }

  /** No connection puts anything on its queue. */
  ghost predicate NoSubmit(more: seq<Action>) {
    forall i :: 0 <= i < |more| ==> !more[i].Submit?
  }

  lemma ThenSnoc(c: Cipher, s: Net, more: seq<Action>, a: Action)
    ensures Then(c, s, more + [a]) == Apply(c, Then(c, s, more), a)
    ensures NoSubmit(more) && !a.Submit? ==> NoSubmit(more + [a])
  {
    ThenAppend(c, s, more, [a]);
    assert [a][1..] == [];
    assert Then(c, Then(c, s, more), [a]) == Then(c, Apply(c, Then(c, s, more), a), []);
  }

  // ---------------------------------------------------------------- copies on the wires

  /** How many complete copies of b the tunnels carry. */
  function Copies(ts: seq<Tunnel>, b: Block): nat {
    if ts == [] then 0 else Copies(ts[..|ts| - 1], b) + Count(ts[|ts| - 1].sent, b)
  }

  /** How many of them the far end has parsed. */
  function Found(ts: seq<Tunnel>, b: Block): nat {
    if ts == [] then 0 else Found(ts[..|ts| - 1], b) + Count(Read(ts[|ts| - 1]), b)
  }

  function Read(t: Tunnel): seq<Block> {
    t.sent[..Min(t.taken, |t.sent|)]
  }

  lemma {:induction false} SumsUpdate(ts: seq<Tunnel>, i: nat, t: Tunnel, b: Block)
    requires i < |ts|
    ensures Copies(ts[i := t], b) == Copies(ts, b) - Count(ts[i].sent, b) + Count(t.sent, b)
    ensures Found(ts[i := t], b) == Found(ts, b) - Count(Read(ts[i]), b) + Count(Read(t), b)
  {
    hide Count, Read;
    var k := |ts| - 1;
    if i < k {
      assert ts[i := t][..k] == ts[..k][i := t];
      SumsUpdate(ts[..k], i, t, b);
    } else {
      assert ts[i := t][..k] == ts[..k];
    }
  }

  lemma SumsOpen(ts: seq<Tunnel>, salt: seq<Byte>, b: Block)
    ensures Copies(ts + [Fresh(salt)], b) == Copies(ts, b) && Found(ts + [Fresh(salt)], b) == Found(ts, b)
  {
    assert (ts + [Fresh(salt)])[..|ts|] == ts;
  }

  lemma {:induction false} CountPrefix(q: seq<Block>, n: nat, b: Block)
    requires n <= |q|
    ensures Count(q[..n], b) <= Count(q, b)
  {
    var k := |q| - 1;
    if n <= k {
      assert q[..k][..n] == q[..n];
      CountPrefix(q[..k], n, b);
    } else {
      assert q[..n] == q;
    }
  }

  lemma {:induction false} FoundAtMost(ts: seq<Tunnel>, b: Block)
    ensures Found(ts, b) <= Copies(ts, b)
  {
    if ts != [] {
      var t := ts[|ts| - 1];
      FoundAtMost(ts[..|ts| - 1], b);
      CountPrefix(t.sent, Min(t.taken, |t.sent|), b);
    }
  }

  /** The step writes b successfully. */
  function Success(s: Net, a: Action, b: Block): nat {
    if a.SendOk? && a.t < |s.tunnels| && s.tunnels[a.t].writable && s.tunnels[a.t].hand == Some(b) then 1 else 0
  }

  /** The step is a failed write of b all of whose bytes nevertheless got through. */
  function FullFail(c: Cipher, s: Net, a: Action, b: Block): nat {
    if a.SendFail? && a.t < |s.tunnels| && s.tunnels[a.t].writable && s.tunnels[a.t].hand == Some(b)
       && a.n >= |Sealed(c, s.tunnels[a.t], b)|
    then 1 else 0
  }

  lemma PutCopies(c: Cipher, t: Tunnel, x: Block, n: nat, ok: bool, b: Block)
    ensures var u := Put(c, t, x, n, ok);
            && Count(u.sent, b) == Count(t.sent, b)
                                   + (if t.writable && (ok || n >= |Sealed(c, t, x)|) then Is(x, b) else 0)
            && (t.taken <= |t.sent| ==> Count(Read(u), b) == Count(Read(t), b))
  {
    CountPush(t.sent, x, b);
    var u := Put(c, t, x, n, ok);
    assert t.taken <= |t.sent| ==> Read(u) == Read(t);
  }

  /** Only a successful write and a failed write that got through put a copy on a wire. */
  lemma CopiesStep(c: Cipher, s: Net, a: Action, b: Block)
    requires !b.KeepAlive()
    ensures var s' := Apply(c, s, a);
            && Copies(s'.tunnels, b) == Copies(s.tunnels, b) + Success(s, a, b) + FullFail(c, s, a, b)
            && Count(s'.written, b) == Count(s.written, b) + Success(s, a, b)
  {
    hide Put, Next, Pack, Count, Copies, Found, Read, Sealed, Without;
    var s' := Apply(c, s, a);
    match a {
      case Open(salt) =>
        SumsOpen(s.tunnels, salt, b);
      case TakeRetry(t) =>
        if s' != s {
          SumsUpdate(s.tunnels, t, s'.tunnels[t], b);
        }
      case TakeNormal(t) =>
        if s' != s {
          SumsUpdate(s.tunnels, t, s'.tunnels[t], b);
        }
      case SendOk(t) =>
        if t < |s.tunnels| && s.tunnels[t].hand.Some? && s.tunnels[t].writable {
          var x := s.tunnels[t].hand.value;
          PutCopies(c, s.tunnels[t], x, 0, true, b);
          SumsUpdate(s.tunnels, t, s'.tunnels[t], b);
          CountPush(s.written, x, b);
        }
      case SendFail(t, n) =>
        if t < |s.tunnels| && s.tunnels[t].hand.Some? {
          PutCopies(c, s.tunnels[t], s.tunnels[t].hand.value, n, false, b);
          SumsUpdate(s.tunnels, t, s'.tunnels[t], b);
        }
      case KeepAlive(t, x, n, ok) =>
        if s' != s {
          PutCopies(c, s.tunnels[t], x, n, ok, b);
          SumsUpdate(s.tunnels, t, s'.tunnels[t], b);
        }
      case Arrive(t, n) =>
        if s' != s {
          SumsUpdate(s.tunnels, t, s'.tunnels[t], b);
        }
      case Hangup(t) =>
        if s' != s {
          SumsUpdate(s.tunnels, t, s'.tunnels[t], b);
        }
      case _ =>
    }
  }

  /** Failed writes of b in a run all of whose bytes got through. */
  function FullFails(c: Cipher, actions: seq<Action>, b: Block): nat {
    if actions == [] then 0
    else
      var init := actions[..|actions| - 1];
      FullFails(c, init, b) + FullFail(c, Run(c, init), actions[|actions| - 1], b)
  }

  /** In every run, the complete copies of b on all wires are its successful writes and those failed writes that got
      through. */
  lemma {:induction false} CopiesExact(c: Cipher, actions: seq<Action>, b: Block)
    requires !b.KeepAlive()
    ensures Copies(Run(c, actions).tunnels, b) == Count(Run(c, actions).written, b) + FullFails(c, actions, b)
  {
    if actions != [] {
      var init, a := actions[..|actions| - 1], actions[|actions| - 1];
      assert Run(c, actions) == Apply(c, Run(c, init), a);
      hide Run, Apply, Copies, Count, Success, FullFail;
      CopiesExact(c, init, b);
      CopiesStep(c, Run(c, init), a, b);
    }
  }

  // ---------------------------------------------------------------- what arrives

  /** Of every block, as many have been delivered as were found on the wires. */
  ghost predicate Good(c: Cipher, s: Net) {
    Inv(c, s) && forall b: Block :: !b.KeepAlive() ==> Count(s.delivered, b) == Found(s.tunnels, b)
  }

  lemma TakenRead(t: Tunnel, used: nat, b: Block)
    requires t.taken < |t.sent|
    ensures Count(Read(Taken(t, used)), b) == Count(Read(t), b) + Is(t.sent[t.taken], b)
  {
    assert t.sent[..t.taken + 1] == t.sent[..t.taken] + [t.sent[t.taken]];
    CountPush(t.sent[..t.taken], t.sent[t.taken], b);
  }

  lemma TakenAtMost(c: Cipher, s: Net, t: nat)
    requires Inv(c, s) && t < |s.tunnels|
    ensures Aligned(c, s.tunnels[t]) && s.tunnels[t].taken <= |s.tunnels[t].sent|
  {
    assert Healthy(c, s.submitted, s.tunnels[t]);
  }

  lemma FoundStep(c: Cipher, s: Net, a: Action, b: Block)
    requires Inv(c, s) && !b.KeepAlive()
    ensures var s' := Apply(c, s, a);
            Count(s'.delivered, b) - Count(s.delivered, b) == Found(s'.tunnels, b) - Found(s.tunnels, b)
  {
    hide Put, Next, Pack, Count, Copies, Found, Read, Sealed, Without, Aligned, Inv;
    var s' := Apply(c, s, a);
    match a {
      case Open(salt) =>
        SumsOpen(s.tunnels, salt, b);
      case TakeRetry(t) =>
        if s' != s {
          SumsUpdate(s.tunnels, t, s'.tunnels[t], b);
          SameRead(s.tunnels[t], s'.tunnels[t]);
        }
      case TakeNormal(t) =>
        if s' != s {
          SumsUpdate(s.tunnels, t, s'.tunnels[t], b);
          SameRead(s.tunnels[t], s'.tunnels[t]);
        }
      case SendOk(t) =>
        if t < |s.tunnels| && s.tunnels[t].hand.Some? && s.tunnels[t].writable {
          TakenAtMost(c, s, t);
          PutCopies(c, s.tunnels[t], s.tunnels[t].hand.value, 0, true, b);
          SumsUpdate(s.tunnels, t, s'.tunnels[t], b);
          SameRead(Put(c, s.tunnels[t], s.tunnels[t].hand.value, 0, true), s'.tunnels[t]);
        }
      case SendFail(t, n) =>
        if t < |s.tunnels| && s.tunnels[t].hand.Some? {
          TakenAtMost(c, s, t);
          PutCopies(c, s.tunnels[t], s.tunnels[t].hand.value, n, false, b);
          SumsUpdate(s.tunnels, t, s'.tunnels[t], b);
          SameRead(Put(c, s.tunnels[t], s.tunnels[t].hand.value, n, false), s'.tunnels[t]);
        }
      case KeepAlive(t, x, n, ok) =>
        if s' != s {
          TakenAtMost(c, s, t);
          PutCopies(c, s.tunnels[t], x, n, ok, b);
          SumsUpdate(s.tunnels, t, s'.tunnels[t], b);
        }
      case Hangup(t) =>
        if s' != s {
          SumsUpdate(s.tunnels, t, s'.tunnels[t], b);
          SameRead(s.tunnels[t], s'.tunnels[t]);
        }
      case Arrive(t, n) =>
        if t < |s.tunnels| && s.tunnels[t].open && Next(c, s.tunnels[t], n).Parsed? {
          TakenAtMost(c, s, t);
          ArriveFound(c, s.tunnels[t], n, b);
          SumsUpdate(s.tunnels, t, s'.tunnels[t], b);
          CountPush(s.delivered, Next(c, s.tunnels[t], n).block, b);
          assert s.delivered + [] == s.delivered;
        }
      case _ =>
    }
  }

  lemma SameRead(t: Tunnel, u: Tunnel)
    requires t.sent == u.sent && t.taken == u.taken
    ensures Read(t) == Read(u)
  {
  }

  lemma ArriveFound(c: Cipher, t: Tunnel, n: nat, b: Block)
    requires Aligned(c, t) && Next(c, t, n).Parsed?
    ensures var p := Next(c, t, n);
            Count(Read(Taken(t, p.used)), b) == Count(Read(t), b) + Is(p.block, b)
  {
    NextBlock(c, t, n);
    hide Next, Aligned, Pack;
    TakenRead(t, Next(c, t, n).used, b);
  }

  lemma ApplyGood(c: Cipher, s: Net, a: Action)
    requires c.Lawful() && Good(c, s)
    ensures Good(c, Apply(c, s, a))
  {
    hide Apply, Inv, Found, Count, Cipher.Lawful;
    ApplyInv(c, s, a);
    forall b: Block | !b.KeepAlive()
      ensures Count(Apply(c, s, a).delivered, b) == Found(Apply(c, s, a).tunnels, b)
    {
      FoundStep(c, s, a, b);
    }
  }

  lemma {:induction false} ThenGood(c: Cipher, s: Net, more: seq<Action>)
    requires c.Lawful() && Good(c, s)
    ensures Good(c, Then(c, s, more))
    decreases |more|
  {
    hide Good, Apply, Cipher.Lawful;
    if more != [] {
      ApplyGood(c, s, more[0]);
      ThenGood(c, Apply(c, s, more[0]), more[1..]);
    }
  }

  lemma {:induction false} RunGood(c: Cipher, actions: seq<Action>)
    requires c.Lawful()
    ensures Good(c, Run(c, actions))
  {
    if actions == [] {
      RunInv(c, actions);
    } else {
      hide Good, Apply, Cipher.Lawful;
      RunGood(c, actions[..|actions| - 1]);
      ApplyGood(c, Run(c, actions[..|actions| - 1]), actions[|actions| - 1]);
    }
  }

  lemma DeliveredCopies(c: Cipher, s: Net, b: Block)
    requires Good(c, s) && !b.KeepAlive()
    ensures Count(s.delivered, b) <= Copies(s.tunnels, b)
  {
    hide Inv, Found, Count, Copies;
    FoundAtMost(s.tunnels, b);
  }

  /** In every run no block arrives more often than it was successfully written or failed and got through. */
  lemma {:induction false} DeliveredAtMost(c: Cipher, actions: seq<Action>, b: Block)
    requires c.Lawful() && !b.KeepAlive()
    ensures Count(Run(c, actions).delivered, b) <= Count(Run(c, actions).written, b) + FullFails(c, actions, b)
  {
    hide Run, Good, Count, Copies, FullFails, Cipher.Lawful;
    RunGood(c, actions);
    DeliveredCopies(c, Run(c, actions), b);
    CopiesExact(c, actions, b);
  }

  // ---------------------------------------------------------------- what can still arrive

  /** The blocks on a tunnel's wire that the far end can still parse. */
  function Unparsed(t: Tunnel): seq<Block> {
    if t.open && t.taken < |t.sent| then t.sent[t.taken..] else []
  }

  /** How many complete copies of b wait on tunnels that are still read. */
  function Waiting(ts: seq<Tunnel>, b: Block): nat {
    if ts == [] then 0 else Waiting(ts[..|ts| - 1], b) + Count(Unparsed(ts[|ts| - 1]), b)
  }

  /** How many blocks of any kind do. */
  function Unread(ts: seq<Tunnel>): nat {
    if ts == [] then 0 else Unread(ts[..|ts| - 1]) + |Unparsed(ts[|ts| - 1])|
  }

  lemma {:induction false} WaitingUpdate(ts: seq<Tunnel>, i: nat, t: Tunnel, b: Block)
    requires i < |ts|
    ensures Waiting(ts[i := t], b) == Waiting(ts, b) - Count(Unparsed(ts[i]), b) + Count(Unparsed(t), b)
    ensures Unread(ts[i := t]) == Unread(ts) - |Unparsed(ts[i])| + |Unparsed(t)|
  {
    hide Count, Unparsed;
    var k := |ts| - 1;
    if i < k {
      assert ts[i := t][..k] == ts[..k][i := t];
      WaitingUpdate(ts[..k], i, t, b);
    } else {
      assert ts[i := t][..k] == ts[..k];
    }
  }

  lemma WaitingOpen(ts: seq<Tunnel>, salt: seq<Byte>, b: Block)
    ensures Waiting(ts + [Fresh(salt)], b) == Waiting(ts, b)
  {
    assert (ts + [Fresh(salt)])[..|ts|] == ts;
  }

  lemma {:induction false} NoneWaiting(ts: seq<Tunnel>, b: Block)
    requires forall i :: 0 <= i < |ts| ==> Unparsed(ts[i]) == []
    ensures Waiting(ts, b) == 0
  {
    if ts != [] {
      NoneWaiting(ts[..|ts| - 1], b);
    }
  }

  /** b as often as it has arrived or can without another write. */
  function InSight(s: Net, b: Block): nat {
    Count(s.delivered, b) + Waiting(s.tunnels, b)
  }

  lemma PutUnparsed(c: Cipher, t: Tunnel, x: Block, n: nat, ok: bool, b: Block)
    requires t.taken <= |t.sent|
    ensures var u := Put(c, t, x, n, ok);
            Count(Unparsed(u), b) ==
              Count(Unparsed(t), b) + if t.open && t.writable && (ok || n >= |Sealed(c, t, x)|) then Is(x, b) else 0
  {
    hide Sealed;
    var u := Put(c, t, x, n, ok);
    if u.sent == t.sent + [x] && t.open {
      assert u.sent[t.taken..] == t.sent[t.taken..] + [x];
      assert t.sent[t.taken..] == Unparsed(t);
      CountPush(Unparsed(t), x, b);
    }
  }

  /** The same over all tunnels, whether the sender keeps the block in hand or not. */
  lemma PutWaiting(c: Cipher, s: Net, t: nat, x: Block, n: nat, ok: bool, u: Tunnel, b: Block)
    requires Inv(c, s) && t < |s.tunnels| && u == Put(c, s.tunnels[t], x, n, ok).(hand := u.hand)
    ensures Waiting(s.tunnels[t := u], b) ==
            Waiting(s.tunnels, b)
            + if s.tunnels[t].open && s.tunnels[t].writable && (ok || n >= |Sealed(c, s.tunnels[t], x)|)
              then Is(x, b) else 0
  {
    hide Put, Count, Waiting, Unparsed, Sealed, Aligned, Inv;
    TakenAtMost(c, s, t);
    PutUnparsed(c, s.tunnels[t], x, n, ok, b);
    SameUnparsed(Put(c, s.tunnels[t], x, n, ok), u);
    WaitingUpdate(s.tunnels, t, u, b);
  }

  lemma ArriveUnparsed(c: Cipher, t: Tunnel, n: nat, b: Block)
    requires Aligned(c, t) && t.open && Next(c, t, n).Parsed?
    ensures var p := Next(c, t, n); var u := Taken(t, p.used);
            && Count(Unparsed(t), b) == Is(p.block, b) + Count(Unparsed(u), b)
            && |Unparsed(u)| < |Unparsed(t)|
  {
    NextBlock(c, t, n);
    hide Next, Aligned, Pack;
    var u := Taken(t, Next(c, t, n).used);
    assert Unparsed(t)[0] == t.sent[t.taken] && Unparsed(t)[1..] == Unparsed(u);
    CountPop(Unparsed(t), b);
  }

  /** What a step brings in sight: a copy that gets on the wire of an open tunnel. Only a hangup takes anything out of
      sight. */
  lemma InSightStep(c: Cipher, s: Net, a: Action, b: Block)
    requires Inv(c, s) && !b.KeepAlive()
    ensures var s', written := Apply(c, s, a), Success(s, a, b) + FullFail(c, s, a, b);
            && InSight(s', b) <= InSight(s, b) + written
            && (!a.Hangup? && (written == 1 ==> s.tunnels[a.t].open) ==> InSight(s', b) == InSight(s, b) + written)
            && Count(s.delivered, b) <= Count(s'.delivered, b)
            && (!a.Arrive? ==> s'.delivered == s.delivered)
  {
    hide Put, Next, Pack, Count, Waiting, Unparsed, Sealed, Without, Aligned, Inv;
    var s' := Apply(c, s, a);
    match a {
      case Open(salt) =>
        WaitingOpen(s.tunnels, salt, b);
      case TakeRetry(t) =>
        if s' != s {
          WaitingUpdate(s.tunnels, t, s'.tunnels[t], b);
          SameUnparsed(s.tunnels[t], s'.tunnels[t]);
        }
      case TakeNormal(t) =>
        if s' != s {
          WaitingUpdate(s.tunnels, t, s'.tunnels[t], b);
          SameUnparsed(s.tunnels[t], s'.tunnels[t]);
        }
      case SendOk(t) =>
        if t < |s.tunnels| && s.tunnels[t].hand.Some? && s.tunnels[t].writable {
          PutWaiting(c, s, t, s.tunnels[t].hand.value, 0, true, s'.tunnels[t], b);
        }
      case SendFail(t, n) =>
        if t < |s.tunnels| && s.tunnels[t].hand.Some? {
          PutWaiting(c, s, t, s.tunnels[t].hand.value, n, false, s'.tunnels[t], b);
        }
      case KeepAlive(t, x, n, ok) =>
        if s' != s {
          PutWaiting(c, s, t, x, n, ok, s'.tunnels[t], b);
        }
      case Arrive(t, n) =>
        if t < |s.tunnels| && s.tunnels[t].open && Next(c, s.tunnels[t], n).Parsed? {
          TakenAtMost(c, s, t);
          ArriveUnparsed(c, s.tunnels[t], n, b);
          WaitingUpdate(s.tunnels, t, s'.tunnels[t], b);
          CountPush(s.delivered, Next(c, s.tunnels[t], n).block, b);
          assert s.delivered + [] == s.delivered;
        }
      case Hangup(t) =>
        if t < |s.tunnels| {
          WaitingUpdate(s.tunnels, t, s'.tunnels[t], b);
          ClosedUnparsed(s'.tunnels[t], b);
        }
      case _ =>
    }
  }

  lemma SameUnparsed(t: Tunnel, u: Tunnel)
    requires t.sent == u.sent && t.taken == u.taken && t.open == u.open
    ensures Unparsed(t) == Unparsed(u)
  {
  }

  lemma ClosedUnparsed(t: Tunnel, b: Block)
    requires !t.open
    ensures Unparsed(t) == [] && Count(Unparsed(t), b) == 0
  {
  }

  ghost predicate OnlyArrivals(more: seq<Action>) {
    forall i :: 0 <= i < |more| ==> more[i].Arrive?
  }

  lemma ArriveProgress(c: Cipher, s: Net, t: nat)
    requires Inv(c, s) && t < |s.tunnels| && Unparsed(s.tunnels[t]) != []
    ensures Unread(Apply(c, s, Arrive(t, |s.tunnels[t].wire|)).tunnels) < Unread(s.tunnels)
  {
    var tun, n := s.tunnels[t], |s.tunnels[t].wire|;
    assert tun.open && tun.taken < |tun.sent|;
    hide Apply, Next, Aligned, Unread, Waiting, Unparsed, Inv, Pack, Count;
    var b := tun.sent[tun.taken];
    TakenAtMost(c, s, t);
    NextBlock(c, tun, n);
    ArriveUnparsed(c, tun, n, b);
    ArriveTakes(c, s, t, n);
    WaitingUpdate(s.tunnels, t, Taken(tun, Next(c, tun, n).used), b);
  }

  lemma ArriveTakes(c: Cipher, s: Net, t: nat, n: nat)
    requires t < |s.tunnels| && s.tunnels[t].open && Next(c, s.tunnels[t], n).Parsed?
    ensures Apply(c, s, Arrive(t, n)).tunnels ==
            s.tunnels[t := Taken(s.tunnels[t], Next(c, s.tunnels[t], n).used)]
  {
    hide Next;
  }

  /** If the far end just reads on, every copy that waits on a tunnel it still reads is delivered. */
  lemma {:induction false} ReadOn(c: Cipher, s: Net) returns (more: seq<Action>)
    requires c.Lawful() && Good(c, s)
    ensures OnlyArrivals(more)
    ensures forall b: Block :: !b.KeepAlive() ==> Count(Then(c, s, more).delivered, b) == InSight(s, b)
    decreases Unread(s.tunnels)
  {
    hide Unread, Apply, Inv, Found, Waiting, Unparsed, Count, InSight, Cipher.Lawful;
    if t: nat :| t < |s.tunnels| && Unparsed(s.tunnels[t]) != [] {
      var a := Arrive(t, |s.tunnels[t].wire|);
      ArriveProgress(c, s, t);
      ApplyGood(c, s, a);
      var rest := ReadOn(c, Apply(c, s, a));
      more := [a] + rest;
      assert more[1..] == rest;
      forall b: Block | !b.KeepAlive()
        ensures Count(Then(c, s, more).delivered, b) == InSight(s, b)
      {
        InSightStep(c, s, a, b);
      }
    } else {
      more := [];
      forall b: Block | !b.KeepAlive() ensures Count(s.delivered, b) == InSight(s, b) {
        NoneWaiting(s.tunnels, b);
        SightDelivered(s, b);
      }
    }
  }

  lemma SightDelivered(s: Net, b: Block)
    ensures InSight(s, b) == Count(s.delivered, b) + Waiting(s.tunnels, b)
  {
  }

  /** From every run the far end can read on until every copy that waits on a tunnel it still reads has arrived. */
  lemma {:induction false} DeliveredUpTo(c: Cipher, actions: seq<Action>) returns (more: seq<Action>)
    requires c.Lawful()
    ensures OnlyArrivals(more)
    ensures forall b: Block :: !b.KeepAlive() ==>
              var s := Run(c, actions);
              Count(Run(c, actions + more).delivered, b) == Count(s.delivered, b) + Waiting(s.tunnels, b)
  {
    hide Run, Good, Count, Waiting, Cipher.Lawful;
    RunGood(c, actions);
    more := ReadOn(c, Run(c, actions));
    RunThen(c, actions, more);
  }

  // ---------------------------------------------------------------- steering a block

  /** b is on its way: neither written nor discarded. */
  ghost predicate AtLarge(s: Net, b: Block) {
    || b in s.poolQueue || b in s.sendQueue || b in s.retryQueue || b in s.retrying
    || exists t :: 0 <= t < |s.tunnels| && s.tunnels[t].hand == Some(b)
  }

  lemma {:induction false} HandsNone(ts: seq<Tunnel>, b: Block)
    requires forall t :: 0 <= t < |ts| ==> ts[t].hand != Some(b)
    ensures Hands(ts, b) == 0
  {
    if ts != [] {
      HandsNone(ts[..|ts| - 1], b);
    }
  }

  lemma LargeCount(c: Cipher, s: Net, b: Block)
    requires Inv(c, s)
    ensures AtLarge(s, b) <==> Count(s.written, b) + Count(s.discarded, b) < Count(s.submitted, b)
  {
    assert Places(s, b) == Count(s.submitted, b);
    hide Inv, Count, Hands;
    CountIn(s.poolQueue, b);
    CountIn(s.sendQueue, b);
    CountIn(s.retryQueue, b);
    CountIn(s.retrying, b);
    if t :| 0 <= t < |s.tunnels| && s.tunnels[t].hand == Some(b) {
      HandsHold(s.tunnels, t, b);
    } else {
      HandsNone(s.tunnels, b);
    }
  }

  /** On the way from s to t nothing was written or discarded of b, no copy of it reached a wire, and none arrived
      or was lost. */
  ghost predicate Kept(s: Net, t: Net, b: Block) {
    && t.submitted == s.submitted
    && Count(t.written, b) == Count(s.written, b)
    && Count(t.discarded, b) == Count(s.discarded, b)
    && t.delivered == s.delivered
    && InSight(t, b) == InSight(s, b)
  }

  /** Steps that only move blocks towards tunnels. */
  lemma MoveKeeps(c: Cipher, s: Net, a: Action, b: Block)
    requires Inv(c, s) && !b.KeepAlive() && (a.Relay? || a.Open? || a.TakeRetry? || a.TakeNormal? || a.Requeue?)
    ensures Kept(s, Apply(c, s, a), b)
  {
    CopiesStep(c, s, a, b);
    InSightStep(c, s, a, b);
    hide Copies, Count, Without, InSight, Inv;
  }

  lemma {:induction false} FromPool(c: Cipher, s: Net, b: Block) returns (more: seq<Action>)
    requires c.Lawful() && Good(c, s) && b in s.poolQueue && !b.KeepAlive()
    ensures NoSubmit(more)
    ensures var t := Then(c, s, more); b in t.sendQueue && Kept(s, t, b)
    decreases |s.poolQueue|
  {
    var s1 := Apply(c, s, Relay);
    MoveKeeps(c, s, Relay, b);
    ApplyGood(c, s, Relay);
    hide Kept, Inv, Found, Count, Cipher.Lawful;
    var rest := [];
    if s.poolQueue[0] != b {
      rest := FromPool(c, s1, b);
      KeptKept(s, s1, Then(c, s1, rest), b);
    }
    more := [Relay] + rest;
    assert more[1..] == rest;
  }

  lemma KeptKept(s: Net, t: Net, u: Net, b: Block)
    requires Kept(s, t, b) && Kept(t, u, b)
    ensures Kept(s, u, b)
  {
  }

  /** A tunnel that works at both ends has b in hand. */
  ghost predicate InHand(s: Net, k: nat, b: Block) {
    k < |s.tunnels| && s.tunnels[k].hand == Some(b) && s.tunnels[k].writable && s.tunnels[k].open
  }

  function SomeSalt(c: Cipher): (salt: seq<Byte>)
    ensures |salt| == c.saltSize
  {
    seq(c.saltSize, i => 0)
  }

  lemma OpenAndTake(c: Cipher, s: Net, retry: bool, b: Block) returns (t: Net)
    requires c.Lawful() && Good(c, s) && !b.KeepAlive() && (if retry then s.retryQueue else s.sendQueue) != []
    ensures var q, k := if retry then s.retryQueue else s.sendQueue, |s.tunnels|;
            && t == Apply(c, Apply(c, s, Open(SomeSalt(c))), if retry then TakeRetry(k) else TakeNormal(k))
            && InHand(t, k, q[0]) && Kept(s, t, b) && Good(c, t)
            && (if retry then t.retryQueue else t.sendQueue) == q[1..]
  {
    var salt := SomeSalt(c);
    var s1, take := Apply(c, s, Open(salt)), if retry then TakeRetry(|s.tunnels|) else TakeNormal(|s.tunnels|);
    t := Apply(c, s1, take);
    hide Inv, Found, Count, Kept, Cipher.Lawful, SomeSalt;
    MoveKeeps(c, s, Open(salt), b);
    ApplyGood(c, s, Open(salt));
    MoveKeeps(c, s1, take, b);
    ApplyGood(c, s1, take);
    KeptKept(s, s1, t, b);
  }

  /** New tunnels take what is queued before b, and one takes b. */
  lemma {:induction false} FromQueue(c: Cipher, s: Net, retry: bool, b: Block) returns (more: seq<Action>, k: nat)
    requires c.Lawful() && Good(c, s) && !b.KeepAlive() && b in if retry then s.retryQueue else s.sendQueue
    ensures NoSubmit(more)
    ensures var t := Then(c, s, more); InHand(t, k, b) && Kept(s, t, b)
    decreases if retry then |s.retryQueue| else |s.sendQueue|
  {
    hide Kept, Apply, InHand, Good, Cipher.Lawful, SomeSalt;
    var q, salt := if retry then s.retryQueue else s.sendQueue, SomeSalt(c);
    var take := if retry then TakeRetry(|s.tunnels|) else TakeNormal(|s.tunnels|);
    var s2 := OpenAndTake(c, s, retry, b);
    var rest := [];
    k := |s.tunnels|;
    if q[0] != b {
      rest, k := FromQueue(c, s2, retry, b);
      KeptKept(s, s2, Then(c, s2, rest), b);
    }
    more := [Open(salt), take] + rest;
    ThenTwo(c, s, Open(salt), take, rest);
  }

  lemma {:induction false} FromRetrying(c: Cipher, s: Net, b: Block) returns (more: seq<Action>, k: nat)
    requires c.Lawful() && Good(c, s) && !b.KeepAlive() && b in s.retrying
    ensures NoSubmit(more)
    ensures var t := Then(c, s, more); InHand(t, k, b) && Kept(s, t, b)
  {
    hide Kept, Apply, InHand, Inv, Found, Count, Cipher.Lawful;
    var i :| 0 <= i < |s.retrying| && s.retrying[i] == b;
    var s1 := Apply(c, s, Requeue(i));
    MoveKeeps(c, s, Requeue(i), b);
    ApplyGood(c, s, Requeue(i));
    RequeueMoves(c, s, i);
    var rest;
    rest, k := FromQueue(c, s1, true, b);
    KeptKept(s, s1, Then(c, s1, rest), b);
    more := [Requeue(i)] + rest;
    assert more[1..] == rest;
  }

  lemma RequeueMoves(c: Cipher, s: Net, i: nat)
    requires i < |s.retrying|
    ensures s.retrying[i] in Apply(c, s, Requeue(i)).retryQueue
  {
    hide Without;
  }

  lemma SealedSome(c: Cipher, t: Tunnel, b: Block)
    requires c.Lawful()
    ensures |Sealed(c, t, b)| > 0
  {
    var a, recs := c.derive(t.salt), Chunks(Pack(b));
    assert a.Lawful() && recs != [];
    assert Fits(recs[0]);
    RecordLength(a, 2 * t.records, recs[0]);
  }

  /** A write that fails at once. */
  lemma FailAtOnce(c: Cipher, s: Net, t: nat, b: Block)
    requires c.Lawful() && Good(c, s) && !b.KeepAlive() && t < |s.tunnels| && s.tunnels[t].hand == Some(b)
    ensures var u := Apply(c, s, SendFail(t, 0)); u.retrying == s.retrying + [b] && Kept(s, u, b) && Good(c, u)
  {
    hide Apply, Copies, Count, InSight, Inv, Found;
    var a := SendFail(t, 0);
    SealedSome(c, s.tunnels[t], b);
    hide Cipher.Lawful, Sealed;
    assert Success(s, a, b) == 0 && FullFail(c, s, a, b) == 0;
    hide Success, FullFail;
    CopiesStep(c, s, a, b);
    InSightStep(c, s, a, b);
    ApplyGood(c, s, a);
    FailMoves(c, s, t, 0, b);
  }

  lemma FailMoves(c: Cipher, s: Net, t: nat, n: nat, b: Block)
    requires t < |s.tunnels| && s.tunnels[t].hand == Some(b)
    ensures var u := Apply(c, s, SendFail(t, n));
            u.retrying == s.retrying + [b] && u.submitted == s.submitted && u.discarded == s.discarded
  {
    hide Put;
  }

  /** Wherever b is, some tunnel that works can get it. */
  lemma {:induction false} ToHand(c: Cipher, s: Net, b: Block) returns (more: seq<Action>, k: nat)
    requires c.Lawful() && Good(c, s) && !b.KeepAlive() && AtLarge(s, b)
    ensures NoSubmit(more)
    ensures var t := Then(c, s, more); InHand(t, k, b) && Kept(s, t, b)
  {
    hide Kept, Apply, InHand, Good, Cipher.Lawful;
    if b in s.retrying {
      more, k := FromRetrying(c, s, b);
    } else if b in s.retryQueue {
      more, k := FromQueue(c, s, true, b);
    } else if b in s.sendQueue {
      more, k := FromQueue(c, s, false, b);
    } else if b in s.poolQueue {
      var first := FromPool(c, s, b);
      ThenGood(c, s, first);
      var rest;
      rest, k := FromQueue(c, Then(c, s, first), false, b);
      more := first + rest;
      ThenAppend(c, s, first, rest);
      KeptKept(s, Then(c, s, first), Then(c, s, more), b);
    } else {
      var t: nat :| t < |s.tunnels| && s.tunnels[t].hand == Some(b);
      FailAtOnce(c, s, t, b);
      var s1 := Apply(c, s, SendFail(t, 0));
      assert b in s1.retrying;
      var rest;
      rest, k := FromRetrying(c, s1, b);
      more := [SendFail(t, 0)] + rest;
      assert more[1..] == rest;
      KeptKept(s, s1, Then(c, s, more), b);
    }
  }

  // ---------------------------------------------------------------- nothing more on its way

  /** Nothing was submitted or written of b, and nothing of it arrived. */
  ghost predicate Untouched(s: Net, t: Net, b: Block) {
    t.submitted == s.submitted && Count(t.written, b) == Count(s.written, b) && t.delivered == s.delivered
  }

  lemma FailThenDiscard(c: Cipher, s: Net, k: nat, b: Block) returns (more: seq<Action>)
    requires c.Lawful() && Good(c, s) && !b.KeepAlive() && InHand(s, k, b)
    ensures NoSubmit(more)
    ensures var t := Then(c, s, more); Untouched(s, t, b) && Count(t.discarded, b) == Count(s.discarded, b) + 1
  {
    hide Count, Good, Apply, InSight, Cipher.Lawful;
    var fail, discard := SendFail(k, 0), Discard(|s.retrying|);
    FailAtOnce(c, s, k, b);
    DiscardLast(c, Apply(c, s, fail), b);
    more := [fail, discard];
    assert [fail, discard] + [] == more;
    ThenTwo(c, s, fail, discard, []);
  }

  lemma DiscardLast(c: Cipher, s: Net, b: Block)
    requires s.retrying != [] && s.retrying[|s.retrying| - 1] == b
    ensures var t := Apply(c, s, Discard(|s.retrying| - 1));
            Untouched(s, t, b) && Count(t.discarded, b) == Count(s.discarded, b) + 1
  {
    CountPush(s.discarded, b, b);
    hide Count, Without;
  }

  /** Every submission of b that is still on its way can be discarded. */
  lemma {:induction false} DiscardAll(c: Cipher, s: Net, b: Block) returns (more: seq<Action>)
    requires c.Lawful() && !b.KeepAlive() && Good(c, s)
    ensures NoSubmit(more)
    ensures var t := Then(c, s, more); Untouched(s, t, b) && !AtLarge(t, b)
    decreases Count(s.submitted, b) - Count(s.written, b) - Count(s.discarded, b)
  {
    hide Inv, Found, Count, InSight, Apply, AtLarge, InHand, Cipher.Lawful;
    LargeCount(c, s, b);
    if AtLarge(s, b) {
      var first, k := ToHand(c, s, b);
      ThenGood(c, s, first);
      var second := FailThenDiscard(c, Then(c, s, first), k, b);
      var both := first + second;
      ThenAppend(c, s, first, second);
      ThenGood(c, s, both);
      LargeCount(c, Then(c, s, both), b);
      var rest := DiscardAll(c, Then(c, s, both), b);
      more := both + rest;
      ThenAppend(c, s, both, rest);
    } else {
      more := [];
    }
  }

  /** Nothing gets b back on its way, and then nothing more of it comes in sight. */
  lemma SettledStep(c: Cipher, s: Net, a: Action, b: Block)
    requires c.Lawful() && Good(c, s) && !b.KeepAlive() && !a.Submit?
    ensures var t := Apply(c, s, a);
            && t.submitted == s.submitted
            && Count(s.written, b) <= Count(t.written, b) && Count(s.delivered, b) <= Count(t.delivered, b)
            && (!AtLarge(s, b) ==> !AtLarge(t, b) && InSight(t, b) <= InSight(s, b))
  {
    hide Inv, Found, Count, Copies, InSight, Apply, Cipher.Lawful, Sealed;
    CopiesStep(c, s, a, b);
    InSightStep(c, s, a, b);
    SubmittedSame(c, s, a);
    DiscardedGrows(c, s, a, b);
    ApplyInv(c, s, a);
    LargeCount(c, s, b);
    LargeCount(c, Apply(c, s, a), b);
  }

  lemma SubmittedSame(c: Cipher, s: Net, a: Action)
    requires !a.Submit?
    ensures Apply(c, s, a).submitted == s.submitted
  {
    hide Put, Next;
  }

  lemma DiscardedGrows(c: Cipher, s: Net, a: Action, b: Block)
    ensures Count(s.discarded, b) <= Count(Apply(c, s, a).discarded, b)
  {
    hide Put, Next, Count, Without;
    if a.Discard? && a.i < |s.retrying| {
      CountPush(s.discarded, s.retrying[a.i], b);
    }
  }

  lemma {:induction false} ThenSettled(c: Cipher, s: Net, more: seq<Action>, b: Block)
    requires c.Lawful() && Good(c, s) && !b.KeepAlive() && NoSubmit(more)
    ensures var t := Then(c, s, more);
            && t.submitted == s.submitted
            && Count(s.written, b) <= Count(t.written, b) && Count(s.delivered, b) <= Count(t.delivered, b)
            && (!AtLarge(s, b) ==> !AtLarge(t, b) && InSight(t, b) <= InSight(s, b))
    decreases |more|
  {
    hide Good, Count, InSight, Apply, AtLarge, Cipher.Lawful;
    if more != [] {
      SettledStep(c, s, more[0], b);
      ApplyGood(c, s, more[0]);
      ThenSettled(c, Apply(c, s, more[0]), more[1..], b);
    }
  }

  lemma PlacesBound(c: Cipher, s: Net, b: Block)
    requires Inv(c, s)
    ensures Count(s.written, b) + Count(s.discarded, b) <= Count(s.submitted, b)
  {
    assert Places(s, b) == Count(s.submitted, b);
  }

  /** The state after a continuation, in the terms of the theorems. */
  lemma {:induction false} AfterMore(c: Cipher, actions: seq<Action>, more: seq<Action>, b: Block)
    requires c.Lawful() && !b.KeepAlive() && NoSubmit(more)
    ensures var s, t := Run(c, actions), Run(c, actions + more);
            && t == Then(c, s, more) && Good(c, t) && t.submitted == s.submitted
            && Count(s.written, b) <= Count(t.written, b) && Count(s.delivered, b) <= Count(t.delivered, b)
            && Count(t.written, b) + Count(t.discarded, b) <= Count(t.submitted, b)
            && (AtLarge(t, b) <==> Count(t.written, b) + Count(t.discarded, b) < Count(t.submitted, b))
            && (!AtLarge(s, b) ==> !AtLarge(t, b) && InSight(t, b) <= InSight(s, b))
  {
    hide Run, Found, Count, InSight, AtLarge, Inv, Cipher.Lawful;
    RunGood(c, actions);
    RunThen(c, actions, more);
    ThenSettled(c, Run(c, actions), more, b);
    ThenGood(c, Run(c, actions), more);
    LargeCount(c, Run(c, actions + more), b);
    PlacesBound(c, Run(c, actions + more), b);
  }

  /** In every run, all submissions of b can still be discarded if and only if no write of it has succeeded. */
  lemma {:induction false} DiscardExact(c: Cipher, actions: seq<Action>, b: Block)
    requires c.Lawful() && !b.KeepAlive()
    ensures (exists more :: NoSubmit(more) &&
               Count(Run(c, actions + more).discarded, b) == Count(Run(c, actions).submitted, b)) <==>
            Count(Run(c, actions).written, b) == 0
  {
    var s := Run(c, actions);
    RunGood(c, actions);
    hide Run, Good, Count, InSight, AtLarge, NoSubmit, Cipher.Lawful;
    if Count(s.written, b) == 0 {
      var more := DiscardAll(c, s, b);
      AfterMore(c, actions, more, b);
      assert Count(Run(c, actions + more).discarded, b) == Count(s.submitted, b);
    }
    if more :| NoSubmit(more) && Count(Run(c, actions + more).discarded, b) == Count(s.submitted, b) {
      AfterMore(c, actions, more, b);
    }
  }

  // ---------------------------------------------------------------- one more, many more

  /** Written once more. */
  lemma Succeeds(c: Cipher, s: Net, k: nat, b: Block)
    requires Inv(c, s) && InHand(s, k, b) && !b.KeepAlive()
    ensures var t := Apply(c, s, SendOk(k));
            && InSight(t, b) == InSight(s, b) + 1 && Count(t.written, b) == Count(s.written, b) + 1
            && t.delivered == s.delivered
  {
    hide Apply, Copies, Count, InSight, Inv;
    CopiesStep(c, s, SendOk(k), b);
    InSightStep(c, s, SendOk(k), b);
  }

  /** As long as b is on its way, one more copy of it can be delivered. */
  lemma {:induction false} OneMore(c: Cipher, s: Net, b: Block) returns (more: seq<Action>)
    requires c.Lawful() && Good(c, s) && !b.KeepAlive() && AtLarge(s, b)
    ensures NoSubmit(more) && Count(Then(c, s, more).delivered, b) == InSight(s, b) + 1
  {
    hide Inv, Found, Count, InSight, Apply, AtLarge, InHand, Cipher.Lawful;
    var first, k := ToHand(c, s, b);
    ThenGood(c, s, first);
    Succeeds(c, Then(c, s, first), k, b);
    ThenSnoc(c, s, first, SendOk(k));
    var both := first + [SendOk(k)];
    ThenGood(c, s, both);
    var rest := ReadOn(c, Then(c, s, both));
    more := both + rest;
    ThenAppend(c, s, both, rest);
  }

  /** Failed, although all of it got through. */
  lemma FailsInFull(c: Cipher, s: Net, k: nat, b: Block) returns (a: Action)
    requires Inv(c, s) && InHand(s, k, b) && !b.KeepAlive()
    ensures !a.Submit?
    ensures var t := Apply(c, s, a); b in t.retrying && InSight(t, b) == InSight(s, b) + 1
  {
    hide Apply, Count, Sealed, InSight, Inv;
    var n := |Sealed(c, s.tunnels[k], b)|;
    a := SendFail(k, n);
    InSightStep(c, s, a, b);
    FailMoves(c, s, k, n, b);
  }

  /** As long as b is on its way, any number of further copies of it can be delivered. */
  lemma {:induction false} ManyMore(c: Cipher, s: Net, b: Block, n: nat) returns (more: seq<Action>)
    requires c.Lawful() && Good(c, s) && !b.KeepAlive() && AtLarge(s, b) && n > 0
    ensures NoSubmit(more) && Count(Then(c, s, more).delivered, b) == InSight(s, b) + n
    decreases n
  {
    hide Inv, Found, Count, InSight, Apply, InHand, Cipher.Lawful;
    if n == 1 {
      more := OneMore(c, s, b);
    } else {
      var first, k := ToHand(c, s, b);
      ThenGood(c, s, first);
      var a := FailsInFull(c, Then(c, s, first), k, b);
      ThenSnoc(c, s, first, a);
      var both := first + [a];
      ThenGood(c, s, both);
      var rest := ManyMore(c, Then(c, s, both), b, n - 1);
      more := both + rest;
      ThenAppend(c, s, both, rest);
    }
  }

  /** b has arrived n times, or still can. */
  lemma AtLeast(c: Cipher, s: Net, b: Block, n: nat) returns (more: seq<Action>)
    requires c.Lawful() && Good(c, s) && !b.KeepAlive() && n > 0 && (AtLarge(s, b) || InSight(s, b) >= n)
    ensures NoSubmit(more) && Count(Then(c, s, more).delivered, b) >= n
  {
    hide Good, Count, InSight, AtLarge, Cipher.Lawful;
    if AtLarge(s, b) {
      more := ManyMore(c, s, b, n);
    } else {
      more := ReadOn(c, s);
    }
  }

  /** In every run, b can still arrive n times in all if and only if a submission of it is on its way, or it has arrived
      and waits on tunnels that are still read that often together. */
  lemma {:induction false} ArrivalsExact(c: Cipher, actions: seq<Action>, b: Block, n: nat)
    requires c.Lawful() && !b.KeepAlive() && n > 0
    ensures var s := Run(c, actions);
            (exists more :: NoSubmit(more) && Count(Run(c, actions + more).delivered, b) >= n) <==>
            || Count(s.written, b) + Count(s.discarded, b) < Count(s.submitted, b)
            || Count(s.delivered, b) + Waiting(s.tunnels, b) >= n
  {
    var s := Run(c, actions);
    RunGood(c, actions);
    LargeCount(c, s, b);
    SightDelivered(s, b);
    hide Run, Good, Count, InSight, Waiting, AtLarge, NoSubmit, Cipher.Lawful;
    if AtLarge(s, b) || InSight(s, b) >= n {
      var more := AtLeast(c, s, b, n);
      RunThen(c, actions, more);
      assert Count(Run(c, actions + more).delivered, b) >= n;
    }
    if more :| NoSubmit(more) && Count(Run(c, actions + more).delivered, b) >= n {
      AfterMore(c, actions, more, b);
      SightDelivered(Run(c, actions + more), b);
    }
  }

  // ---------------------------------------------------------------- repetition

  /** In every run, b can still arrive twice (or has) if and only if a submission of it is on its way, or its
      arrivals and its copies that wait on tunnels still read are at least two. */
  lemma {:induction false} TwiceExact(c: Cipher, actions: seq<Action>, b: Block)
    requires c.Lawful() && !b.KeepAlive()
    ensures var s := Run(c, actions);
            (exists more :: NoSubmit(more) && Count(Run(c, actions + more).delivered, b) >= 2) <==>
            || Count(s.written, b) + Count(s.discarded, b) < Count(s.submitted, b)
            || Count(s.delivered, b) + Waiting(s.tunnels, b) >= 2
  {
    hide Run, Count, Waiting, NoSubmit, Cipher.Lawful;
    ArrivalsExact(c, actions, b, 2);
  }

  /** In particular a block submitted once arrives at most once in every run in which no failed write of it got
      through. */
  lemma {:induction false} OnceUnlessFullFail(c: Cipher, actions: seq<Action>, b: Block)
    requires c.Lawful() && !b.KeepAlive()
    requires Count(Run(c, actions).submitted, b) == 1 && FullFails(c, actions, b) == 0
    ensures Count(Run(c, actions).delivered, b) <= 1
  {
    hide Run, Count, FullFails, Cipher.Lawful;
    DeliveredAtMost(c, actions, b);
    WrittenAtMostOnce(c, actions, b);
  }

  // ---------------------------------------------------------------- loss

  /** b has not arrived and, however the run goes on without another submission, never will. */
  ghost predicate Gone(c: Cipher, actions: seq<Action>, b: Block) {
    forall more :: NoSubmit(more) ==> b !in Run(c, actions + more).delivered
  }

  /** In every run, b is gone if and only if it has not arrived, no submission of it is on its way, and no copy of
      it waits on a tunnel that is still read. */
  lemma {:induction false} GoneExact(c: Cipher, actions: seq<Action>, b: Block)
    requires c.Lawful() && !b.KeepAlive()
    ensures var s := Run(c, actions);
            Gone(c, actions, b) <==>
            && b !in s.delivered
            && Count(s.written, b) + Count(s.discarded, b) == Count(s.submitted, b)
            && Waiting(s.tunnels, b) == 0
  {
    var s := Run(c, actions);
    RunGood(c, actions);
    PlacesBound(c, s, b);
    CountIn(s.delivered, b);
    hide Run, Good, Count, Waiting, NoSubmit, Cipher.Lawful;
    ArrivalsExact(c, actions, b, 1);
    if Gone(c, actions, b) {
      forall more | NoSubmit(more) ensures Count(Run(c, actions + more).delivered, b) < 1 {
        CountIn(Run(c, actions + more).delivered, b);
      }
    } else {
      var more :| NoSubmit(more) && b in Run(c, actions + more).delivered;
      CountIn(Run(c, actions + more).delivered, b);
    }
  }

  /** The far ends of all tunnels hang up. */
  lemma HangupAll(c: Cipher, s: Net) returns (more: seq<Action>)
    ensures NoSubmit(more)
    ensures var t := Then(c, s, more);
            && t == s.(tunnels := t.tunnels) && |t.tunnels| == |s.tunnels|
            && forall i :: 0 <= i < |s.tunnels| ==> t.tunnels[i] == s.tunnels[i].(open := false)
  {
    more := [];
    while |more| < |s.tunnels|
      invariant |more| <= |s.tunnels| && NoSubmit(more)
      invariant var t := Then(c, s, more);
                && t == s.(tunnels := t.tunnels) && |t.tunnels| == |s.tunnels|
                && forall i :: 0 <= i < |s.tunnels| ==>
                     t.tunnels[i] == if i < |more| then s.tunnels[i].(open := false) else s.tunnels[i]
    {
      ThenSnoc(c, s, more, Hangup(|more|));
      more := more + [Hangup(|more|)];
    }
  }

  /** After that nothing waits on them, and nothing else has changed. */
  lemma HungUp(s: Net, t: Net, b: Block)
    requires t == s.(tunnels := t.tunnels) && |t.tunnels| == |s.tunnels|
    requires forall i :: 0 <= i < |s.tunnels| ==> t.tunnels[i] == s.tunnels[i].(open := false)
    ensures Waiting(t.tunnels, b) == 0 && AtLarge(t, b) == AtLarge(s, b)
  {
    NoneWaiting(t.tunnels, b);
    hide Waiting;
    if i :| 0 <= i < |s.tunnels| && s.tunnels[i].hand == Some(b) {
      assert t.tunnels[i].hand == Some(b);
    }
  }

  /** Whatever has not arrived can still be lost, even if it was written. */
  lemma {:induction false} Loses(c: Cipher, actions: seq<Action>, b: Block) returns (more: seq<Action>)
    requires c.Lawful() && !b.KeepAlive() && b !in Run(c, actions).delivered
    ensures NoSubmit(more) && Gone(c, actions + more, b)
  {
    hide Run, Good, Count, InSight, Waiting, AtLarge, Gone, Cipher.Lawful;
    RunGood(c, actions);
    var first := DiscardAll(c, Run(c, actions), b);
    var mid := Then(c, Run(c, actions), first);
    var second := HangupAll(c, mid);
    more := first + second;
    ThenAppend(c, Run(c, actions), first, second);
    HungUp(mid, Then(c, mid, second), b);
    AfterMore(c, actions, more, b);
    GoneExact(c, actions + more, b);
  }

  /** In every run, b can still be lost for good if and only if it has not arrived. */
  lemma {:induction false} LossExact(c: Cipher, actions: seq<Action>, b: Block)
    requires c.Lawful() && !b.KeepAlive()
    ensures (exists more :: NoSubmit(more) && Gone(c, actions + more, b)) <==> b !in Run(c, actions).delivered
  {
    hide Run, Count, Gone, NoSubmit, Cipher.Lawful;
    if b !in Run(c, actions).delivered {
      var more := Loses(c, actions, b);
    }
    if more :| NoSubmit(more) && Gone(c, actions + more, b) {
      AfterMore(c, actions, more, b);
      GoneExact(c, actions + more, b);
      CountIn(Run(c, actions).delivered, b);
      CountIn(Run(c, actions + more).delivered, b);
    }
  }

  // ---------------------------------------------------------------- all of it happens

  lemma OneSubmission(c: Cipher, actions: seq<Action>, b: Block)
    requires b.WellFormed() && !b.KeepAlive() && actions == [Submit(b)]
    ensures var s := Run(c, actions);
            && s.submitted == [b] && Count(s.submitted, b) == 1 && s.delivered == []
            && Count(s.written, b) == 0 && Count(s.discarded, b) == 0
  {
    var init, none: seq<Block> := actions[..0], [];
    assert Run(c, init) == EMPTY;
    assert Run(c, actions) == Apply(c, EMPTY, actions[0]);
    assert Count(none, b) == 0;
    CountPush(none, b, b);
    hide Run, Count;
    assert none + [b] == [b];
  }

  /** Every block can be discarded and lost. */
  lemma {:induction false} BlocksCanBeLost(c: Cipher, b: Block) returns (actions: seq<Action>)
    requires c.Lawful() && b.WellFormed() && !b.KeepAlive()
    ensures var s := Run(c, actions);
            s.submitted == [b] && Count(s.discarded, b) == 1 && Gone(c, actions, b)
  {
    hide Run, Good, Count, Waiting, InSight, AtLarge, Gone, NoSubmit, Cipher.Lawful;
    var once := [Submit(b)];
    OneSubmission(c, once, b);
    RunGood(c, once);
    var first := DiscardAll(c, Run(c, once), b);
    AfterMore(c, once, first, b);
    var second := Loses(c, once + first, b);
    AfterMore(c, once + first, second, b);
    actions := once + first + second;
    ThenDiscarded(c, Run(c, once + first), second, b);
  }

  lemma {:induction false} ThenDiscarded(c: Cipher, s: Net, more: seq<Action>, b: Block)
    ensures Count(s.discarded, b) <= Count(Then(c, s, more).discarded, b)
    decreases |more|
  {
    hide Apply, Count;
    if more != [] {
      DiscardedGrows(c, s, more[0], b);
      ThenDiscarded(c, Apply(c, s, more[0]), more[1..], b);
    }
  }

  /** Every block can be written successfully and be lost all the same, when the far end hangs up before it reads it. */
  lemma {:induction false} WrittenCanBeLost(c: Cipher, b: Block) returns (actions: seq<Action>)
    requires c.Lawful() && b.WellFormed() && !b.KeepAlive()
    ensures var s := Run(c, actions);
            s.submitted == [b] && Count(s.written, b) == 1 && Gone(c, actions, b)
  {
    hide Run, Inv, Found, Count, Waiting, InSight, AtLarge, Gone, InHand, Apply, Cipher.Lawful;
    var once := [Submit(b)];
    OneSubmission(c, once, b);
    RunGood(c, once);
    var s := Run(c, once);
    LargeCount(c, s, b);
    var first, k := ToHand(c, s, b);
    ThenGood(c, s, first);
    Succeeds(c, Then(c, s, first), k, b);
    ThenSnoc(c, s, first, SendOk(k));
    var sent := first + [SendOk(k)];
    AfterMore(c, once, sent, b);
    var second := Loses(c, once + sent, b);
    AfterMore(c, once + sent, second, b);
    actions := once + sent + second;
  }

  /** And every block can arrive twice. */
  lemma {:induction false} BlocksCanArriveTwice(c: Cipher, b: Block) returns (actions: seq<Action>)
    requires c.Lawful() && b.WellFormed() && !b.KeepAlive()
    ensures Run(c, actions).submitted == [b] && Count(Run(c, actions).delivered, b) >= 2
  {
    hide Run, Count, Waiting, NoSubmit, Cipher.Lawful;
    var once := [Submit(b)];
    OneSubmission(c, once, b);
    TwiceExact(c, once, b);
    var more :| NoSubmit(more) && Count(Run(c, once + more).delivered, b) >= 2;
    actions := once + more;
    AfterMore(c, once, more, b);
  }

  // ---------------------------------------------------------------- every tunnel keeps working

  /** Any tunnel that is free and works, however much it has sent, can take the next block of either queue and write it,
      and is then free again. */
  lemma {:induction false} AnyTunnelServes(c: Cipher, s: Net, k: nat, retry: bool)
    requires c.Lawful() && Good(c, s) && k < |s.tunnels|
    requires s.tunnels[k].hand.None? && s.tunnels[k].writable && s.tunnels[k].open
    requires var q := if retry then s.retryQueue else s.sendQueue; q != [] && !q[0].KeepAlive()
    ensures var q := if retry then s.retryQueue else s.sendQueue;
            var t := Then(c, s, [if retry then TakeRetry(k) else TakeNormal(k), SendOk(k)]);
            && (if retry then t.retryQueue else t.sendQueue) == q[1..]
            && k < |t.tunnels| && t.tunnels[k].hand.None? && t.tunnels[k].writable && t.tunnels[k].open
            && Count(t.written, q[0]) == Count(s.written, q[0]) + 1 && InSight(t, q[0]) == InSight(s, q[0]) + 1
  {
    var q, take := if retry then s.retryQueue else s.sendQueue, if retry then TakeRetry(k) else TakeNormal(k);
    var s1 := Apply(c, s, take);
    var t := Apply(c, s1, SendOk(k));
    assert InHand(s1, k, q[0]) && (if retry then s1.retryQueue else s1.sendQueue) == q[1..];
    SendOkFrees(c, s1, k);
    hide Apply, Count, InSight, Inv, Found, Cipher.Lawful;
    MoveKeeps(c, s, take, q[0]);
    ApplyGood(c, s, take);
    Succeeds(c, s1, k, q[0]);
    assert [take, SendOk(k)] + [] == [take, SendOk(k)];
    ThenTwo(c, s, take, SendOk(k), []);
  }

  lemma SendOkFrees(c: Cipher, s: Net, k: nat)
    requires k < |s.tunnels| && s.tunnels[k].hand.Some? && s.tunnels[k].writable
    ensures var t := Apply(c, s, SendOk(k));
            && |t.tunnels| == |s.tunnels| && t.tunnels[k].hand.None? && t.tunnels[k].writable
            && t.tunnels[k].open == s.tunnels[k].open
            && t.sendQueue == s.sendQueue && t.retryQueue == s.retryQueue
  {
    hide Sealed;
  }

  /** Either arm is open to every retry goroutine: its block, and only that, goes back to the retry queue or is
      discarded. */
  lemma RetryArms(c: Cipher, s: Net, i: nat, b: Block)
    requires i < |s.retrying|
    ensures var t := Apply(c, s, Requeue(i));
            && Count(t.retryQueue, b) == Count(s.retryQueue, b) + Is(s.retrying[i], b)
            && Count(t.retrying, b) == Count(s.retrying, b) - Is(s.retrying[i], b)
    ensures var t := Apply(c, s, Discard(i));
            && Count(t.discarded, b) == Count(s.discarded, b) + Is(s.retrying[i], b)
            && Count(t.retrying, b) == Count(s.retrying, b) - Is(s.retrying[i], b)
  {
    hide Count, Without, Put, Next;
    CountWithout(s.retrying, i, b);
    CountPush(s.retryQueue, s.retrying[i], b);
    CountPush(s.discarded, s.retrying[i], b);
  }

  /** A write can fail at any byte: what it got through stays on the wire, the tunnel takes no more and is free, and the
      block, and no other, is to be retried. */
  lemma FailsAnywhere(c: Cipher, s: Net, t: nat, b: Block, n: nat)
    requires t < |s.tunnels| && s.tunnels[t].hand == Some(b) && s.tunnels[t].writable
    requires n <= |Sealed(c, s.tunnels[t], b)|
    ensures var after := Apply(c, s, SendFail(t, n)); var u := after.tunnels[t];
            && u.wire == s.tunnels[t].wire + Sealed(c, s.tunnels[t], b)[..n] && !u.writable && u.hand.None?
            && (u.sent == if n == |Sealed(c, s.tunnels[t], b)| then s.tunnels[t].sent + [b] else s.tunnels[t].sent)
            && after.retrying == s.retrying + [b]
  {
    hide Sealed;
  }

  /** A ping or pong gets on the wire of any tunnel that works, like a block, and leaves what the tunnel holds alone. */
  lemma KeepAliveWritten(c: Cipher, s: Net, t: nat, b: Block)
    requires t < |s.tunnels| && s.tunnels[t].writable && b.WellFormed() && b.KeepAlive()
    ensures var u := Apply(c, s, KeepAlive(t, b, 0, true)).tunnels[t];
            u.sent == s.tunnels[t].sent + [b] && u.writable && u.hand == s.tunnels[t].hand
  {
    hide Sealed;
  }
}
