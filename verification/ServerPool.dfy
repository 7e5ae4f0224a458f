/** tunnel_pool/manager.go (ServerManager) and tunnel_pool/pool.go: a peer without tunnels is removed after a while. */
module ServerPool {
  import opened Bytes

  const EMPTY_POOL_DESTROY_SEC := 60

  /** The goroutine started by a Notify: when it was started and, once cancelled, when. */
  datatype Countdown = Countdown(started: nat, cancelled: Option<nat>)

  /** Time is counted in seconds. emptySince is history: the step and the time since which the pool has been empty
      without interruption, once a tunnel has come and gone. */
  datatype Server = Server(
    size: nat,
    triggered: bool,
    countdowns: seq<Countdown>,
    cancelCountDownFunc: Option<nat>,
    now: nat,
    peerRemoved: bool,
    steps: nat,
    emptySince: Option<(nat, nat)>)

  const INIT := Server(0, false, [], None, 0, false, 0, None)

  datatype Action = AddTunnel | RemoveTunnel | Tick | Fire(i: nat) | FireTied(i: nat)

  /** Calling a cancel function; calling it again does nothing. */
  function Cancel(s: Server): Server {
    if s.cancelCountDownFunc.Some? && s.cancelCountDownFunc.value < |s.countdowns|
       && s.countdowns[s.cancelCountDownFunc.value].cancelled.None?
    then
      var i := s.cancelCountDownFunc.value;
      s.(countdowns := s.countdowns[i := s.countdowns[i].(cancelled := Some(s.now))])
    else s
  }

  function Notified(s: Server): Server {
    if s.size == 0 && !s.triggered then
      var t := Cancel(s);
      t.(triggered := true,
         countdowns := t.countdowns + [Countdown(s.now, None)],
         cancelCountDownFunc := Some(|t.countdowns|))
    else if s.size != 0 && s.triggered then Cancel(s.(triggered := false))
    else s
  }

  /** The manager itself; goroutines holds the countdowns it started. */
  class ServerManager {
    var triggered: bool
    var cancelCountDownFunc: Option<nat>
    var goroutines: seq<Countdown>

    ghost predicate Within(s: Server)
      reads this
    {
      s.triggered == triggered && s.cancelCountDownFunc == cancelCountDownFunc && s.countdowns == goroutines
    }

    constructor ()
      ensures Within(INIT)
    {
      triggered, cancelCountDownFunc, goroutines := false, None, [];
    }

    method CancelCountDown(now: nat, ghost s: Server)
      requires Within(s) && s.now == now
      modifies this`goroutines
      ensures Within(Cancel(s))
    {
      if cancelCountDownFunc.Some? {
        var i := cancelCountDownFunc.value;
        if i < |goroutines| && goroutines[i].cancelled.None? {
          goroutines := goroutines[i := goroutines[i].(cancelled := Some(now))];
        }
      }
    }

    /** Called under the pool's mutex after every change of its size. */
    method Notify(tunnelCount: nat, now: nat, ghost s: Server)
      requires Within(s) && s.size == tunnelCount && s.now == now
      modifies this
      ensures Within(Notified(s))
      ensures triggered <==> tunnelCount == 0
    {
      if tunnelCount == 0 && !triggered {
        CancelCountDown(now, s);
        triggered := true;
        cancelCountDownFunc := Some(|goroutines|);
        goroutines := goroutines + [Countdown(now, None)];
      }
      if tunnelCount != 0 && triggered {
        triggered := false;
        CancelCountDown(now, s.(triggered := false));
      }
    }
  }

  function Effect(s: Server, a: Action): Server {
    match a
    case AddTunnel =>
      Notified(s.(size := s.size + 1, emptySince := None))
    case RemoveTunnel =>
      if s.size > 0 then
        Notified(s.(size := s.size - 1,
                  emptySince := if s.size == 1 then Some((s.steps + 1, s.now)) else s.emptySince))
      else s
    case Tick => s.(now := s.now + 1)
    case Fire(i) =>
      // the timer arm, with the cancellation not pending
      if i < |s.countdowns| && s.countdowns[i].cancelled.None?
         && s.countdowns[i].started + EMPTY_POOL_DESTROY_SEC <= s.now
      then s.(peerRemoved := true)
      else s
    case FireTied(i) =>
      // the timer arm chosen although the cancellation is pending too
      if i < |s.countdowns| && s.countdowns[i].cancelled.Some?
         && s.countdowns[i].started + EMPTY_POOL_DESTROY_SEC <= s.countdowns[i].cancelled.value
      then s.(peerRemoved := true)
      else s
  }

  function Apply(s: Server, a: Action): Server {
    Effect(s, a).(steps := s.steps + 1)
  }

  function Run(actions: seq<Action>): Server {
    if actions == [] then INIT else Apply(Run(actions[..|actions| - 1]), actions[|actions| - 1])
  }

  /** After the first notification the flag says whether the pool is empty, and the only countdown that is not
      cancelled is the one the cancel function belongs to, started when the pool became empty. */
  ghost predicate Inv(s: Server) {
    && (s.triggered ==> s.size == 0)
    && (s.size == 0 && s.countdowns != [] ==> s.triggered)
    && (s.emptySince.Some? <==> s.triggered)
    && (s.cancelCountDownFunc.Some? ==> s.cancelCountDownFunc.value < |s.countdowns|)
    && (forall i :: 0 <= i < |s.countdowns| && s.countdowns[i].cancelled.None? ==>
          && s.cancelCountDownFunc == Some(i)
          && s.triggered
          && s.countdowns[i].started == s.emptySince.value.1)
    && (s.triggered ==> s.cancelCountDownFunc.Some?
                        && s.countdowns[s.cancelCountDownFunc.value].cancelled.None?)
  }

  lemma ApplyInv(s: Server, a: Action)
    requires Inv(s)
    ensures Inv(Apply(s, a))
  {
  }

  lemma {:induction false} RunInv(actions: seq<Action>)
    ensures Inv(Run(actions))
    ensures Run(actions).steps == |actions|
  {
    if actions != [] {
      RunInv(actions[..|actions| - 1]);
      ApplyInv(Run(actions[..|actions| - 1]), actions[|actions| - 1]);
    }
  }

  /** After every notification the flag is exact and at most one countdown is running. */
  lemma OneCountdown(actions: seq<Action>, i: nat, j: nat)
    requires var s := Run(actions);
             && i < |s.countdowns| && s.countdowns[i].cancelled.None?
             && j < |s.countdowns| && s.countdowns[j].cancelled.None?
    ensures i == j && Run(actions).triggered && Run(actions).size == 0
  {
    RunInv(actions);
  }

  lemma SinceAfter(s: Server, a: Action)
    requires Inv(s)
    ensures var t := Apply(s, a);
            || t.emptySince.None?
            || (t.emptySince == s.emptySince && t.size == s.size == 0)
            || (t.emptySince == Some((s.steps + 1, s.now)) && t.now == s.now && s.size > 0)
  {
  }

  /** emptySince names a step of the run and the time of that step. */
  lemma {:induction false} SinceStep(actions: seq<Action>)
    ensures var since := Run(actions).emptySince;
            since.Some? ==>
              && 1 <= since.value.0 <= |actions|
              && Run(actions[..since.value.0]).now == since.value.1
              && Run(actions[..since.value.0 - 1]).size > 0
  {
    assert actions[..|actions|] == actions;
    if actions != [] {
      var init, a := actions[..|actions| - 1], actions[|actions| - 1];
      var s := Run(init);
      assert Run(actions) == Apply(s, a);
      hide Run, Apply, Inv;
      RunInv(init);
      SinceStep(init);
      SinceAfter(s, a);
      if s.emptySince.Some? {
        var since := s.emptySince.value.0;
        assert init[..since] == actions[..since] && init[..since - 1] == actions[..since - 1];
      }
    }
  }

  /** From that step on the pool has been empty. */
  lemma {:induction false} EmptyThroughout(actions: seq<Action>, m: nat)
    requires Run(actions).emptySince.Some?
    requires Run(actions).emptySince.value.0 <= m <= |actions|
    ensures Run(actions[..m]).size == 0
  {
    RunInv(actions);
    assert actions[..|actions|] == actions;
    if m < |actions| {
      var k := |actions| - 1;
      assert Run(actions) == Apply(Run(actions[..k]), actions[k]);
      hide Run, Apply, Inv;
      RunInv(actions[..k]);
      SinceAfter(Run(actions[..k]), actions[k]);
      assert actions[..k][..m] == actions[..m];
      EmptyThroughout(actions[..k], m);
    }
  }

  /** From one step of the run to another, EmptyPoolDestroySec apart, the pool was empty at every moment. */
  ghost predicate EmptyPeriod(actions: seq<Action>, from: nat, to: nat) {
    && from <= to <= |actions|
    && Run(actions[..from]).now + EMPTY_POOL_DESTROY_SEC <= Run(actions[..to]).now
    && forall m :: from <= m <= to ==> Run(actions[..m]).size == 0
  }

  /** The countdown of the present empty period has run out. */
  predicate Expired(s: Server) {
    && s.triggered && s.cancelCountDownFunc.Some? && s.cancelCountDownFunc.value < |s.countdowns|
    && s.countdowns[s.cancelCountDownFunc.value].started + EMPTY_POOL_DESTROY_SEC <= s.now
  }

  /** It is countdown i that has. */
  predicate ExpiredAs(s: Server, i: nat) {
    Expired(s) && s.cancelCountDownFunc == Some(i)
  }

  lemma {:induction false} ExpiredAfterEmptyPeriod(actions: seq<Action>) returns (from: nat)
    requires Expired(Run(actions))
    ensures EmptyPeriod(actions, from, |actions|)
  {
    RunInv(actions);
    var s := Run(actions);
    assert s.countdowns[s.cancelCountDownFunc.value].cancelled.None?;
    from := s.emptySince.value.0;
    SinceStep(actions);
    assert actions[..|actions|] == actions;
    forall m | from <= m <= |actions| ensures Run(actions[..m]).size == 0 {
      EmptyThroughout(actions, m);
    }
  }

  /** A step cancels a countdown only if it is the current one. */
  lemma CancelledBy(s: Server, a: Action, i: nat)
    requires Inv(s) && i < |Apply(s, a).countdowns|
    ensures i < |s.countdowns| ==> Apply(s, a).countdowns[i].started == s.countdowns[i].started
    ensures Apply(s, a).countdowns[i].cancelled.Some? ==> i < |s.countdowns|
    ensures Apply(s, a).countdowns[i].cancelled.Some? && s.countdowns[i].cancelled.None? ==>
              && s.triggered && s.cancelCountDownFunc == Some(i)
              && Apply(s, a).countdowns[i].cancelled.value == s.now
    ensures i < |s.countdowns| && s.countdowns[i].cancelled.Some? ==> Apply(s, a).countdowns[i] == s.countdowns[i]
  {
  }

  /** A countdown that was cancelled too late was, before that, the expired countdown of an empty period. */
  lemma {:induction false} CancelledLate(actions: seq<Action>, i: nat) returns (to: nat)
    requires var s := Run(actions);
             && i < |s.countdowns| && s.countdowns[i].cancelled.Some?
             && s.countdowns[i].started + EMPTY_POOL_DESTROY_SEC <= s.countdowns[i].cancelled.value
    ensures to < |actions| && ExpiredAs(Run(actions[..to]), i)
  {
    var k := |actions| - 1;
    var init := actions[..k];
    RunInv(init);
    CancelledBy(Run(init), actions[k], i);
    assert Run(actions) == Apply(Run(init), actions[k]);
    if Run(init).countdowns[i].cancelled.Some? {
      to := CancelledLate(init, i);
      assert init[..to] == actions[..to];
    } else {
      to := k;
    }
  }

  /** A step removes the peer only if a countdown ran out: the present one, or one that was cancelled late. */
  lemma RemovedBy(s: Server, a: Action)
    requires !s.peerRemoved && Apply(s, a).peerRemoved
    ensures a.Fire? || a.FireTied?
    ensures a.i < |s.countdowns|
    ensures a.Fire? ==> s.countdowns[a.i].cancelled.None?
                        && s.countdowns[a.i].started + EMPTY_POOL_DESTROY_SEC <= s.now
    ensures a.FireTied? ==> s.countdowns[a.i].cancelled.Some?
                            && s.countdowns[a.i].started + EMPTY_POOL_DESTROY_SEC <= s.countdowns[a.i].cancelled.value
  {
  }

  lemma EmptyPeriodWithin(actions: seq<Action>, k: nat, from: nat, to: nat)
    requires k <= |actions| && EmptyPeriod(actions[..k], from, to)
    ensures EmptyPeriod(actions, from, to)
  {
    assert forall m :: 0 <= m <= k ==> actions[..k][..m] == actions[..m];
  }

  /** The step that removed the peer. */
  lemma {:induction false} RemovalStep(actions: seq<Action>) returns (k: nat)
    requires Run(actions).peerRemoved
    ensures k < |actions| && !Run(actions[..k]).peerRemoved && Run(actions[..k + 1]).peerRemoved
  {
    k := |actions| - 1;
    assert actions[..k + 1] == actions;
    if Run(actions[..k]).peerRemoved {
      var init := actions[..k];
      k := RemovalStep(init);
      assert init[..k] == actions[..k] && init[..k + 1] == actions[..k + 1];
    }
  }

  /** In every run, ties included, the peer is removed only after a period of EmptyPoolDestroySec through which the pool
      was empty; and if the cancellation was not pending, that period reaches up to the removal. */
  lemma {:induction false} RemovedOnlyAfterEmptyPeriod(actions: seq<Action>) returns (k: nat, from: nat, to: nat)
    requires Run(actions).peerRemoved
    ensures k < |actions| && !Run(actions[..k]).peerRemoved && Run(actions[..k + 1]).peerRemoved
    ensures to <= k && EmptyPeriod(actions, from, to)
    ensures actions[k].Fire? ==> to == k
  {
    k := RemovalStep(actions);
    var init, a := actions[..k], actions[k];
    assert actions[..k + 1][..k] == init;
    var s := Run(init);
    RemovedBy(s, a);
    if a.Fire? {
      RunInv(init);
      to := k;
    } else {
      to := CancelledLate(init, a.i);
    }
    assert init[..k] == init && init[..to][..to] == init[..to] == actions[..to];
    from := ExpiredAfterEmptyPeriod(init[..to]);
    EmptyPeriodWithin(actions, to, from, to);
  }

  lemma {:induction false} TimePasses(actions: seq<Action>, m: nat)
    requires m <= |actions|
    ensures Run(actions[..m]).now <= Run(actions).now
  {
    assert actions[..|actions|] == actions;
    if m < |actions| {
      var k := |actions| - 1;
      assert actions[..k][..m] == actions[..m];
      TimePasses(actions[..k], m);
    }
  }

  /** In every run in which a tunnel has come and gone: the pool has been empty for EmptyPoolDestroySec up to now,
      if and only if the countdown of the present empty period has run out. */
  lemma {:induction false} EmptyUpToNow(actions: seq<Action>)
    requires Run(actions).countdowns != []
    ensures (exists from :: EmptyPeriod(actions, from, |actions|)) <==> Expired(Run(actions))
  {
    hide Run, Expired, EmptyPeriod;
    if Expired(Run(actions)) {
      var from := ExpiredAfterEmptyPeriod(actions);
    }
    if from :| EmptyPeriod(actions, from, |actions|) {
      EmptyMeansExpired(actions, from);
    }
  }

  lemma {:induction false} EmptyMeansExpired(actions: seq<Action>, from: nat)
    requires Run(actions).countdowns != [] && EmptyPeriod(actions, from, |actions|)
    ensures Expired(Run(actions))
  {
    hide Run;
    var s := Run(actions);
    assert actions[..|actions|] == actions;
    RunInv(actions);
    SinceStep(actions);
    var since := s.emptySince.value.0;
    assert Run(actions[..since - 1]).size > 0;
    assert since <= from;
    TimePasses(actions[..from], since);
    assert actions[..from][..since] == actions[..since];
  }

  /** So a removal comes at the end of an empty period if and only if, at that step, the countdown of the present empty
      period has run out; which a timer that ties with its cancellation does not ensure. */
  lemma {:induction false} RemovalEndsEmptyPeriod(actions: seq<Action>, k: nat)
    requires k < |actions| && !Run(actions[..k]).peerRemoved && Run(actions[..k + 1]).peerRemoved
    ensures (exists from :: EmptyPeriod(actions, from, k)) <==> Expired(Run(actions[..k]))
    ensures actions[k].Fire? ==> Expired(Run(actions[..k]))
  {
    var init, a := actions[..k], actions[k];
    assert actions[..k + 1][..k] == init;
    RemovedBy(Run(init), a);
    EmptyUpToNow(init);
    RunInv(init);
    assert |init| == k;
    forall from ensures EmptyPeriod(actions, from, k) <==> EmptyPeriod(init, from, k) {
      assert forall m :: 0 <= m <= k ==> init[..m] == actions[..m];
    }
  }

  /** The pool has had a tunnel. */
  ghost predicate HadTunnel(actions: seq<Action>) {
    exists m :: 0 <= m <= |actions| && Run(actions[..m]).size > 0
  }

  /** An empty pool that has had a tunnel has had a countdown. */
  lemma {:induction false} CountdownsAfterTunnel(actions: seq<Action>)
    requires Run(actions).size == 0
    ensures HadTunnel(actions) <==> Run(actions).countdowns != []
  {
    assert actions[..|actions|] == actions;
    if actions == [] {
      assert forall m :: 0 <= m <= |actions| ==> actions[..m] == [];
    } else {
      var init, a := actions[..|actions| - 1], actions[|actions| - 1];
      assert forall m :: 0 <= m < |actions| ==> actions[..m] == init[..m];
      RunInv(init);
      assert Run(actions) == Apply(Run(init), a);
      StillEmpty(Run(init), a);
      hide Run, Apply, Inv;
      assert init[..|init|] == init;
      if Run(init).size > 0 {
        assert Run(actions[..|init|]).size > 0;
      } else {
        CountdownsAfterTunnel(init);
        if HadTunnel(init) {
          var m :| 0 <= m <= |init| && Run(init[..m]).size > 0;
          assert Run(actions[..m]).size > 0;
        }
      }
    }
  }

  lemma StillEmpty(s: Server, a: Action)
    requires Inv(s) && Apply(s, a).size == 0
    ensures s.size > 0 ==> Apply(s, a).countdowns != []
    ensures s.size == 0 ==> (Apply(s, a).countdowns != [] <==> s.countdowns != [])
  {
  }

  lemma FireSteps(s: Server)
    requires Inv(s) && !s.peerRemoved
    ensures (exists i: nat :: Apply(s, Fire(i)).peerRemoved) <==> Expired(s)
  {
    if Expired(s) {
      assert Apply(s, Fire(s.cancelCountDownFunc.value)).peerRemoved;
    }
  }

  /** In every run whose peer is still there: a timer can remove it now, its cancellation not pending, if and only if
      the pool has had a tunnel and has been empty for EmptyPoolDestroySec up to now. */
  lemma {:induction false} FireExact(actions: seq<Action>)
    requires !Run(actions).peerRemoved
    ensures (exists i: nat :: Run(actions + [Fire(i)]).peerRemoved) <==>
            HadTunnel(actions) && exists from :: EmptyPeriod(actions, from, |actions|)
  {
    RunInv(actions);
    forall i: nat ensures Run(actions + [Fire(i)]) == Apply(Run(actions), Fire(i)) {
      RunStep(actions, Fire(i));
    }
    FireSteps(Run(actions));
    assert actions[..|actions|] == actions;
    assert Expired(Run(actions)) ==> Run(actions).size == 0 && Run(actions).countdowns != [];
    hide Run, Apply, Inv, Expired, HadTunnel;
    if Expired(Run(actions)) {
      EmptyUpToNow(actions);
      CountdownsAfterTunnel(actions);
    } else if from :| HadTunnel(actions) && EmptyPeriod(actions, from, |actions|) {
      assert Run(actions[..|actions|]).size == 0;
      CountdownsAfterTunnel(actions);
      EmptyUpToNow(actions);
    }
  }

  lemma RunStep(actions: seq<Action>, a: Action)
    ensures Run(actions + [a]) == Apply(Run(actions), a)
  {
    assert (actions + [a])[..|actions|] == actions;
  }

  /** A countdown that has once run out is cancelled, if at all, after that. */
  lemma {:induction false} LateAfterExpiry(actions: seq<Action>, to: nat, i: nat)
    requires to <= |actions| && ExpiredAs(Run(actions[..to]), i)
    ensures var s := Run(actions);
            && i < |s.countdowns|
            && s.countdowns[i].started + EMPTY_POOL_DESTROY_SEC <=
                 (if s.countdowns[i].cancelled.Some? then s.countdowns[i].cancelled.value else s.now)
  {
    assert actions[..|actions|] == actions;
    if to < |actions| {
      var k := |actions| - 1;
      var init := actions[..k];
      assert init[..to] == actions[..to];
      assert Run(actions) == Apply(Run(init), actions[k]);
      hide Run, Apply, Inv, Expired;
      LateAfterExpiry(init, to, i);
      CountdownKept(Run(init), actions[k], i);
    } else {
      RunInv(actions);
    }
  }

  lemma CountdownKept(s: Server, a: Action, i: nat)
    requires i < |s.countdowns|
    ensures var t := Apply(s, a);
            && i < |t.countdowns| && t.countdowns[i].started == s.countdowns[i].started && s.now <= t.now
            && (s.countdowns[i].cancelled.Some? ==> t.countdowns[i] == s.countdowns[i])
            && (t.countdowns[i].cancelled.Some? && s.countdowns[i].cancelled.None? ==>
                  t.countdowns[i].cancelled.value == s.now)
  {
  }

  /** In every run whose peer is still there: a timer that ties with its cancellation removes it if and only if its
      countdown has been cancelled and had run out, as the countdown of an empty period, before that. */
  lemma {:induction false} TiedFireExact(actions: seq<Action>, i: nat)
    requires !Run(actions).peerRemoved
    ensures Run(actions + [FireTied(i)]).peerRemoved <==>
            && i < |Run(actions).countdowns| && Run(actions).countdowns[i].cancelled.Some?
            && exists to :: 0 <= to < |actions| && ExpiredAs(Run(actions[..to]), i)
  {
    RunStep(actions, FireTied(i));
    var s := Run(actions);
    if Apply(s, FireTied(i)).peerRemoved {
      RemovedBy(s, FireTied(i));
      var to := CancelledLate(actions, i);
    }
    if to :| 0 <= to < |actions| && ExpiredAs(Run(actions[..to]), i) {
      LateAfterExpiry(actions, to, i);
    }
  }

  /** The size of the pool and the clock count what happened. */
  lemma {:induction false} RunTallies(actions: seq<Action>)
    ensures Run(actions).size == Tally(actions) && Run(actions).now == Ticks(actions)
  {
    if actions != [] {
      RunTallies(actions[..|actions| - 1]);
    }
  }

  /** Tunnels added, less those removed while there were any. */
  function Tally(actions: seq<Action>): nat {
    if actions == [] then 0
    else
      var n := Tally(actions[..|actions| - 1]);
      match actions[|actions| - 1]
      case AddTunnel => n + 1
      case RemoveTunnel => if n > 0 then n - 1 else 0
      case _ => n
  }

  function Ticks(actions: seq<Action>): nat {
    if actions == [] then 0
    else Ticks(actions[..|actions| - 1]) + if actions[|actions| - 1].Tick? then 1 else 0
  }

  /** Such a timer can remove a peer that has a tunnel. */
  lemma TieRemovesLivePeer() returns (actions: seq<Action>)
    ensures var s := Run(actions); s.peerRemoved && s.size == 1
  {
    actions := [AddTunnel, RemoveTunnel];
    assert actions[..1] == [AddTunnel] && actions[..1][..0] == [];
    var n := 0;
    while n < EMPTY_POOL_DESTROY_SEC
      invariant n <= EMPTY_POOL_DESTROY_SEC
      invariant Run(actions) == Server(0, true, [Countdown(0, None)], Some(0), n, false, n + 2, Some((2, 0)))
    {
      assert (actions + [Tick])[..|actions|] == actions;
      actions := actions + [Tick];
      n := n + 1;
    }
    assert (actions + [AddTunnel])[..|actions|] == actions;
    actions := actions + [AddTunnel];
    assert (actions + [FireTied(0)])[..|actions|] == actions;
    actions := actions + [FireTied(0)];
  }
}
