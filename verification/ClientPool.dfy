/** tunnel_pool/manager.go (ClientManager) and tunnel_pool/pool.go: keeping the pool at its size, and the order in
    which endpoints are tried. */
module ClientPool {
  import opened Bytes

  /** The pool of a client that wants num tunnels. pending counts DecreaseNotify calls that wait for the lock; running
      is tunnelToCreate in the one that holds it. replaced is history: how many tunnels the last one to take the lock
      has added under an ID that was in use. */
  datatype Pool = Pool(num: nat, tunnels: set<nat>, pending: nat, running: Option<int>, replaced: nat)

  /** NewTunnelPool starts with one notification. */
  function Init(num: nat): Pool {
    Pool(num, {}, 1, None, 0)
  }

  datatype Action = Begin | Create(id: nat) | End | Die(id: nat)

  function Apply(s: Pool, a: Action): Pool {
    match a
    case Begin =>
      // takes the lock and reads the size of the pool
      if s.pending > 0 && s.running.None? then
        s.(pending := s.pending - 1, running := Some(s.num - |s.tunnels|), replaced := 0)
      else s
    case Create(id) =>
      // a dial succeeds: AddTunnel, tunnelToCreate--
      if s.running.Some? && s.running.value > 0 then
        s.(tunnels := s.tunnels + {id}, running := Some(s.running.value - 1),
           replaced := if id in s.tunnels then s.replaced + 1 else s.replaced)
      else s
    case End =>
      if s.running.Some? && s.running.value <= 0 then s.(running := None) else s
    case Die(id) =>
      // RemoveTunnel, which starts another notification
      if id in s.tunnels then s.(tunnels := s.tunnels - {id}, pending := s.pending + 1) else s
  }

  function Run(num: nat, actions: seq<Action>): Pool {
    if actions == [] then Init(num)
    else Apply(Run(num, actions[..|actions| - 1]), actions[|actions| - 1])
  }

  /** Tunnels the running notification is still going to create. */
  function Promised(s: Pool): int {
    if s.running.Some? then s.running.value else 0
  }

  /** Tunnels that exist, are promised or were replaced never exceed the target, and if they fall short of it a
      notification is still waiting. */
  ghost predicate Inv(s: Pool) {
    && 0 <= Promised(s)
    && |s.tunnels| + Promised(s) + s.replaced <= s.num
    && (|s.tunnels| + Promised(s) + s.replaced < s.num ==> s.pending > 0)
  }

  lemma {:induction false} RunInv(num: nat, actions: seq<Action>)
    ensures Run(num, actions).num == num && Inv(Run(num, actions))
  {
    if actions != [] {
      var s, a := Run(num, actions[..|actions| - 1]), actions[|actions| - 1];
      RunInv(num, actions[..|actions| - 1]);
      if a.Die? && a.id in s.tunnels {
        assert |s.tunnels - {a.id}| == |s.tunnels| - 1;
      }
      if a.Create? {
        assert a.id in s.tunnels ==> s.tunnels + {a.id} == s.tunnels;
        assert a.id !in s.tunnels ==> |s.tunnels + {a.id}| == |s.tunnels| + 1;
      }
    }
  }

  /** No notification is running or waiting. */
  predicate Quiet(s: Pool) {
    s.pending == 0 && s.running.None?
  }

  /** In every interleaving of deaths and notifications the pool never exceeds its target; and when it is quiet it
      holds exactly the target number of tunnels if and only if the last notification replaced none. */
  lemma Replenished(num: nat, actions: seq<Action>)
    ensures var s := Run(num, actions);
            && |s.tunnels| <= num
            && (Quiet(s) ==> (|s.tunnels| == num <==> s.replaced == 0))
  {
    RunInv(num, actions);
  }

  /** Every tunnel is created under an ID that is not in use at that moment. */
  ghost predicate FreshIds(num: nat, actions: seq<Action>) {
    forall m :: 0 <= m < |actions| && actions[m].Create? ==> actions[m].id !in Run(num, actions[..m]).tunnels
  }

  lemma {:induction false} FreshReplacesNone(num: nat, actions: seq<Action>)
    requires FreshIds(num, actions)
    ensures Run(num, actions).replaced == 0
  {
    if actions != [] {
      var k := |actions| - 1;
      assert forall m :: 0 <= m < k ==> actions[..k][..m] == actions[..m];
      FreshReplacesNone(num, actions[..k]);
    }
  }

  /** With fresh IDs a quiet pool is always full. */
  lemma FreshAlwaysFull(num: nat, actions: seq<Action>)
    requires FreshIds(num, actions) && Quiet(Run(num, actions))
    ensures |Run(num, actions).tunnels| == num
  {
    FreshReplacesNone(num, actions);
    Replenished(num, actions);
  }

  /** From every state of every run in which a notification waits or none was replaced, the pool can be filled: it comes
      to rest with exactly the target number of tunnels. */
  lemma {:induction false} CanRefill(num: nat, actions: seq<Action>) returns (more: seq<Action>)
    requires Run(num, actions).pending > 0 || Run(num, actions).replaced == 0
    ensures actions <= more && Quiet(Run(num, more)) && |Run(num, more).tunnels| == num
  {
    RunInv(num, actions);
    var idle := Finish(num, actions);
    RunInv(num, idle);
    more := Drain(num, idle);
  }

  /** And from no other, as long as no tunnel dies. */
  lemma {:induction false} StaysShort(num: nat, actions: seq<Action>, more: seq<Action>)
    requires Run(num, actions).pending == 0 && Run(num, actions).replaced > 0
    requires forall i :: 0 <= i < |more| ==> !more[i].Die?
    ensures var s := Run(num, actions + more);
            s.pending == 0 && s.replaced > 0 && (Quiet(s) ==> |s.tunnels| < num)
    decreases |more|
  {
    if more == [] {
      assert actions + more == actions;
    } else {
      var k := |more| - 1;
      assert (actions + more)[..|actions| + k] == actions + more[..k];
      assert Run(num, actions + more) == Apply(Run(num, actions + more[..k]), more[k]);
      hide Run;
      StaysShort(num, actions, more[..k]);
    }
    hide Run;
    Replenished(num, actions + more);
  }

  lemma Step(num: nat, actions: seq<Action>, a: Action) returns (more: seq<Action>)
    ensures more == actions + [a] && Run(num, more) == Apply(Run(num, actions), a)
  {
    more := actions + [a];
    assert more[..|actions|] == actions;
  }

  /** An ID that is not in use. */
  lemma {:induction false} FreshId(used: set<nat>) returns (id: nat)
    ensures id !in used && forall x :: x in used ==> x < id
  {
    if used == {} {
      id := 0;
    } else {
      var x :| x in used;
      var rest := FreshId(used - {x});
      id := if x < rest then rest else x + 1;
      assert forall y :: y in used ==> y == x || y in used - {x};
    }
  }

  /** The running notification creates its tunnels and ends. */
  lemma {:induction false} Finish(num: nat, actions: seq<Action>) returns (more: seq<Action>)
    requires Inv(Run(num, actions))
    ensures actions <= more && Run(num, more).running.None?
    ensures Run(num, more).pending == Run(num, actions).pending
    ensures Run(num, actions).replaced == 0 ==>
              && |Run(num, more).tunnels| == |Run(num, actions).tunnels| + Promised(Run(num, actions))
              && Run(num, more).replaced == 0
    decreases Promised(Run(num, actions))
  {
    var s := Run(num, actions);
    if s.running.None? {
      more := actions;
    } else if s.running.value <= 0 {
      more := Step(num, actions, End);
    } else {
      var id := FreshId(s.tunnels);
      assert |s.tunnels + {id}| == |s.tunnels| + 1;
      var next := Step(num, actions, Create(id));
      hide Run;
      more := Finish(num, next);
    }
  }

  /** The waiting notifications run one after the other. */
  lemma {:induction false} Drain(num: nat, actions: seq<Action>) returns (more: seq<Action>)
    requires Inv(Run(num, actions)) && Run(num, actions).running.None? && Run(num, actions).num == num
    requires Run(num, actions).pending == 0 ==> |Run(num, actions).tunnels| == num
    ensures actions <= more && Quiet(Run(num, more)) && |Run(num, more).tunnels| == num
    decreases Run(num, actions).pending
  {
    var s := Run(num, actions);
    if s.pending == 0 {
      more := actions;
    } else {
      var begun := Step(num, actions, Begin);
      var done := Finish(num, begun);
      RunInv(num, done);
      more := Drain(num, done);
    }
  }

  /** Without them it can stay short for good. */
  lemma ClashLeavesPoolShort()
    ensures var s := Run(2, [Begin, Create(7), Create(7), End]); Quiet(s) && |s.tunnels| == 1
  {
    var a := [Begin, Create(7), Create(7), End];
    assert a[..3] == [Begin, Create(7), Create(7)] && a[..3][..2] == [Begin, Create(7)];
    assert a[..3][..2][..1] == [Begin] && a[..3][..2][..1][..0] == [];
    assert Run(2, [Begin]) == Pool(2, {}, 0, Some(2), 0);
    assert {} + {7} == {7} == {7} + {7};
    assert Run(2, [Begin, Create(7)]) == Pool(2, {7}, 0, Some(1), 0);
    assert Run(2, [Begin, Create(7), Create(7)]) == Pool(2, {7}, 0, Some(0), 1);
  }

  // ---------------------------------------------------------------- endpoints

  predicate At(s: string, part: string, i: nat) {
    i + |part| <= |s| && s[i..i + |part|] == part
  }

  predicate Contains(s: string, part: string) {
    exists i :: 0 <= i <= |s| && At(s, part, i)
  }

  /** The URL that is dialled for an endpoint. */
  function Url(endpoint: string): string {
    if Contains(endpoint, "wss://") || Contains(endpoint, "ws://") then endpoint else "ws://" + endpoint
  }

  lemma UrlTwice(endpoint: string)
    ensures Url(Url(endpoint)) == Url(endpoint)
    ensures Url(endpoint) == endpoint || Url(endpoint) == "ws://" + endpoint
    ensures Url(endpoint) == endpoint <==> Contains(endpoint, "wss://") || Contains(endpoint, "ws://")
  {
    var u := "ws://" + endpoint;
    assert At(u, "ws://", 0);
  }

  function Urls(endpoints: seq<string>): seq<string> {
    seq(|endpoints|, i requires 0 <= i < |endpoints| => Url(endpoints[i]))
  }

  /** What a turn of the loop meets: a dial that fails, a dial whose handshake fails, or a new tunnel. */
  datatype Outcome = DialFails | HandshakeFails | Connects

  function Max(a: int, b: int): int {
    if a < b then b else a
  }

  function Connections(outcomes: seq<Outcome>): nat {
    if outcomes == [] then 0 else Connections(outcomes[1..]) + if outcomes[0].Connects? then 1 else 0
  }

  predicate Usable(endpoints: seq<string>) {
    endpoints != [] && forall i :: 0 <= i < |endpoints| ==> endpoints[i] != ""
  }

  class ClientManager {
    const endpoints: array<string>
    const retryFailed: bool

    constructor (endpoints: array<string>, retryFailed: bool)
      ensures this.endpoints == endpoints && this.retryFailed == retryFailed
    {
      this.endpoints, this.retryFailed := endpoints, retryFailed;
    }

    /** Moves an endpoint that failed twice in a row behind its neighbour, or the last one to the front. */
    method Demote(curindex: nat, url: string)
      requires curindex < endpoints.Length && url == Url(endpoints[curindex])
      modifies endpoints
      ensures endpoints[..] == Demoted(old(endpoints[..]), curindex, url)
      ensures endpoints[if curindex == endpoints.Length - 1 then 0 else curindex + 1] == url
      ensures multiset(Urls(endpoints[..])) == multiset(Urls(old(endpoints[..])))
      ensures old(Usable(endpoints[..])) ==> Usable(endpoints[..])
    {
      ghost var was := endpoints[..];
      var other := if curindex == endpoints.Length - 1 then 0 else curindex + 1;
      endpoints[curindex] := endpoints[other];
      endpoints[other] := url;
      UrlTwice(was[curindex]);
      SwapUrls(was, endpoints[..], curindex, other);
    }

    /** What a failed dial does: the waiting time grows up to five units, or the endpoint is demoted if it is the one
        that failed before. */
    method OnFailure(curindex: nat, url: string, lastfailed: string, retryweight: map<string, nat>)
        returns (weights: map<string, nat>)
      requires curindex < endpoints.Length && url == Url(endpoints[curindex])
      modifies endpoints
      ensures endpoints[..] == if !retryFailed && lastfailed == url then Demoted(old(endpoints[..]), curindex, url)
                               else old(endpoints[..])
      ensures multiset(Urls(endpoints[..])) == multiset(Urls(old(endpoints[..])))
      ensures old(Usable(endpoints[..])) ==> Usable(endpoints[..])
      ensures weights == retryweight[url :=
                if retryFailed then Min(5, Weight(retryweight, url) + 1) else 1] || Weight(retryweight, url) > 5
    {
      weights := retryweight;
      if retryFailed {
        var weight := Weight(retryweight, url);
        if weight < 5 {
          weights := retryweight[url := weight + 1];
        } else {
          assert weight == 5 ==> retryweight[url := 5] == retryweight;
        }
      } else {
        if lastfailed == url {
          Demote(curindex, url);
        }
        weights := retryweight[url := 1];
      }
    }

    /** The loop of DecreaseNotify, over whatever its dials meet until the pool's context is done. The endpoint list
        stays the configured one up to order and the added scheme. With usable endpoints the loop makes a tunnel of
        every connection it meets until it has made enough; the endpoint it dials each time is the one whose turn it is,
        and the list changes exactly when the same endpoint has failed twice in a row and failed ones are not to be
        retried.
        lists are the endpoint lists before each dial, and at the end. */
    method Dial(toCreate: int, outcomes: seq<Outcome>)
        returns (created: nat, dialled: seq<string>, ghost lists: seq<seq<string>>)
      modifies endpoints
      ensures multiset(Urls(endpoints[..])) == multiset(Urls(old(endpoints[..])))
      ensures created <= Min(Max(toCreate, 0), Connections(outcomes))
      ensures old(Usable(endpoints[..])) ==>
                && created == Min(Max(toCreate, 0), Connections(outcomes))
                && History(old(endpoints[..]), endpoints[..], retryFailed, toCreate, outcomes, dialled, lists)
                && (|dialled| == |outcomes| || toCreate <= 0 || created == toCreate)
    {
      var tunnelToCreate, lastfailed := toCreate, "";
      var retryweight: map<string, nat> := map[];
      dialled := [];
      ghost var trace := [Loop(endpoints[..], toCreate, "", [])];
      var turn := 0;
      hide TurnOk;
      while tunnelToCreate > 0 && turn < |outcomes|
        invariant turn <= |outcomes| && |trace| == turn + 1
        invariant trace[0] == old(Loop(endpoints[..], toCreate, "", []))
        invariant trace[turn] == Loop(endpoints[..], tunnelToCreate, lastfailed, dialled)
        invariant forall k :: 0 <= k < turn ==> TurnOk(trace[k], trace[k + 1], outcomes[k], retryFailed)
      {
        tunnelToCreate, lastfailed, retryweight, dialled :=
          Turn(tunnelToCreate, outcomes[turn], lastfailed, retryweight, dialled);
        trace := trace + [Loop(endpoints[..], tunnelToCreate, lastfailed, dialled)];
        turn := turn + 1;
      }
      TraceTells(trace, outcomes, retryFailed);
      TraceTracked(trace, outcomes, retryFailed);
      lists := Lists(trace);
      created := toCreate - tunnelToCreate;
    }

    /** One turn of the loop: the dial, if there is an endpoint to dial, and what its outcome does to the list. */
    method Turn(todo: int, outcome: Outcome, failed: string, retryweight: map<string, nat>, before: seq<string>)
        returns (tunnelToCreate: int, lastfailed: string, weights: map<string, nat>, dialled: seq<string>)
      requires todo > 0
      modifies endpoints
      ensures TurnOk(old(Loop(endpoints[..], todo, failed, before)),
                     Loop(endpoints[..], tunnelToCreate, lastfailed, dialled), outcome, retryFailed)
    {
      hide Url, Urls, Index, Demoted;
      tunnelToCreate, lastfailed, weights, dialled := todo, failed, retryweight, before;
      if endpoints.Length > 0 {
        var curindex := Index(todo, endpoints.Length);
        if endpoints[curindex] != "" {
          var url := Url(endpoints[curindex]);
          dialled := dialled + [url];
          if outcome.DialFails? {
            weights := OnFailure(curindex, url, lastfailed, weights);
            lastfailed := url;
          } else {
            if lastfailed == url {
              lastfailed, weights := "", weights[url := 0];
            }
            if outcome.Connects? {
              tunnelToCreate := tunnelToCreate - 1;
            }
          }
        }
      }
    }
  }

  /** Where the loop stands: the endpoint list, how many tunnels are to be created, the endpoint of the latest failure
      unless it was reached since, and what has been dialled. */
  datatype Loop = Loop(list: seq<string>, todo: int, failed: string, dialled: seq<string>)

  ghost predicate TurnOk(a: Loop, b: Loop, outcome: Outcome, retryFailed: bool) {
    && multiset(Urls(b.list)) == multiset(Urls(a.list)) && a.todo > 0
    && (Usable(a.list) ==> Usable(b.list))
    && if a.list == [] || a.list[Index(a.todo, |a.list|)] == "" then b == a
       else
         var i := Index(a.todo, |a.list|);
         var url := Url(a.list[i]);
         && b.dialled == a.dialled + [url]
         && b.todo == a.todo - (if outcome.Connects? then 1 else 0)
         && b.list == (if !retryFailed && outcome.DialFails? && a.failed == url then Demoted(a.list, i, url)
                       else a.list)
         && b.failed == (if outcome.DialFails? then url else if a.failed == url then "" else a.failed)
  }

  function Lists(trace: seq<Loop>): seq<seq<string>> {
    seq(|trace|, i requires 0 <= i < |trace| => trace[i].list)
  }

  /** The whole loop, from its turns. */
  ghost predicate Turns(trace: seq<Loop>, outcomes: seq<Outcome>, retryFailed: bool) {
    && 0 < |trace| <= |outcomes| + 1 && trace[0].failed == "" && trace[0].dialled == []
    && forall k :: 0 <= k < |trace| - 1 ==> TurnOk(trace[k], trace[k + 1], outcomes[k], retryFailed)
  }

  lemma TurnsInit(trace: seq<Loop>, outcomes: seq<Outcome>, retryFailed: bool)
    requires Turns(trace, outcomes, retryFailed) && |trace| > 1
    ensures Turns(trace[..|trace| - 1], outcomes, retryFailed)
    ensures var n := |trace| - 1; TurnOk(trace[n - 1], trace[n], outcomes[n - 1], retryFailed)
  {
    hide TurnOk;
    var n := |trace| - 1;
    assert TurnOk(trace[n - 1], trace[n - 1 + 1], outcomes[n - 1], retryFailed);
  }

  lemma TurnCounts(a: Loop, b: Loop, outcome: Outcome, retryFailed: bool)
    requires TurnOk(a, b, outcome, retryFailed)
    ensures multiset(Urls(b.list)) == multiset(Urls(a.list)) && a.todo > 0
    ensures a.todo - (if outcome.Connects? then 1 else 0) <= b.todo <= a.todo
  {
  }

  lemma {:induction false} TraceTells(trace: seq<Loop>, outcomes: seq<Outcome>, retryFailed: bool)
    requires Turns(trace, outcomes, retryFailed)
    ensures var first, last, made := trace[0], trace[|trace| - 1], Connections(outcomes[..|trace| - 1]);
            && multiset(Urls(last.list)) == multiset(Urls(first.list))
            && first.todo - made <= last.todo <= first.todo && (last.todo >= 0 || last.todo == first.todo)
            && made <= Connections(outcomes) && (|trace| == |outcomes| + 1 ==> made == Connections(outcomes))
  {
    var n := |trace| - 1;
    ConnectionsRest(outcomes, n);
    if n == 0 {
      assert outcomes[..0] == [];
    } else {
      hide Connections, Urls, TurnOk, Turns;
      TurnsInit(trace, outcomes, retryFailed);
      ConnectionsNext(outcomes, n - 1);
      TurnCounts(trace[n - 1], trace[n], outcomes[n - 1], retryFailed);
      TraceTells(trace[..n], outcomes, retryFailed);
    }
  }

  lemma {:induction false} TraceTracked(trace: seq<Loop>, outcomes: seq<Outcome>, retryFailed: bool)
    requires Turns(trace, outcomes, retryFailed)
    ensures var first, last, made := trace[0], trace[|trace| - 1], Connections(outcomes[..|trace| - 1]);
            Usable(first.list) ==>
              && last.todo == first.todo - made && |last.dialled| == |trace| - 1
              && Tracked(first.list, last.list, retryFailed, first.todo, outcomes, last.dialled, Lists(trace),
                         last.failed, made)
  {
    var n, first := |trace| - 1, trace[0];
    if n == 0 {
      TrackedFirst(first.list, retryFailed, first.todo, outcomes);
      assert Lists(trace) == [first.list] && outcomes[..0] == [];
    } else if Usable(first.list) {
      var init := trace[..n];
      assert Lists(trace) == Lists(init) + [trace[n].list];
      hide Index, Connections, Demoted, Url, Urls, Tracked, Lists, TurnOk, Turns, Usable;
      TurnsInit(trace, outcomes, retryFailed);
      ConnectionsNext(outcomes, n - 1);
      TraceTracked(init, outcomes, retryFailed);
      TurnTracked(first, trace[n - 1], trace[n], outcomes, retryFailed, Lists(init), Connections(outcomes[..n - 1]));
    }
  }

  lemma TurnTracked(first: Loop, a: Loop, b: Loop, outcomes: seq<Outcome>, retryFailed: bool,
                    lists: seq<seq<string>>, made: nat)
    requires |a.dialled| < |outcomes| && a.todo == first.todo - made
    requires Tracked(first.list, a.list, retryFailed, first.todo, outcomes, a.dialled, lists, a.failed, made)
    requires TurnOk(a, b, outcomes[|a.dialled|], retryFailed)
    ensures |b.dialled| == |a.dialled| + 1
    ensures b.todo == a.todo - if outcomes[|a.dialled|].Connects? then 1 else 0
    ensures Tracked(first.list, b.list, retryFailed, first.todo, outcomes, b.dialled, lists + [b.list], b.failed,
                    made + if outcomes[|a.dialled|].Connects? then 1 else 0)
  {
    TrackedUsable(first.list, a.list, retryFailed, first.todo, outcomes, a.dialled, lists, a.failed, made);
    hide Index, Connections, Demoted, Url, Urls, Tracked;
    var i := Index(a.todo, |a.list|);
    assert a.list[i] != "";
    TrackedNext(first.list, a.list, b.list, retryFailed, first.todo, outcomes, a.dialled, lists,
                a.failed, b.failed, made, Url(a.list[i]));
  }

  function Weight(retryweight: map<string, nat>, url: string): nat {
    if url in retryweight then retryweight[url] else 0
  }

  /** The endpoint whose turn it is when so many tunnels are to be created. */
  function Index(todo: int, n: nat): (i: nat)
    requires n > 0
    ensures i < n && todo - 1 == n * ((todo - 1) / n) + i
  {
    (todo - 1) % n
  }

  /** The list after its i-th endpoint, under the URL that was dialled, has changed places with the next. */
  function Demoted(list: seq<string>, i: nat, url: string): seq<string>
    requires i < |list|
  {
    var other := if i == |list| - 1 then 0 else i + 1;
    list[i := list[other]][other := url]
  }

  /** The endpoint of the latest failure, unless it has been reached since. */
  function LastFailed(dialled: seq<string>, outcomes: seq<Outcome>): string
    requires |dialled| <= |outcomes|
  {
    if dialled == [] then ""
    else
      var k := |dialled| - 1;
      var before := LastFailed(dialled[..k], outcomes);
      if outcomes[k].DialFails? then dialled[k] else if before == dialled[k] then "" else before
  }

  lemma StartsEmpty(first: seq<string>, retryFailed: bool, toCreate: int, outcomes: seq<Outcome>)
    ensures History(first, first, retryFailed, toCreate, outcomes, [], [first])
    ensures LastFailed([], outcomes) == "" && Connections(outcomes[..0]) == 0
  {
    assert outcomes[..0] == [];
  }

  lemma LastFailedNext(dialled: seq<string>, outcomes: seq<Outcome>, url: string)
    requires |dialled| < |outcomes|
    ensures LastFailed(dialled + [url], outcomes) ==
            var before := LastFailed(dialled, outcomes);
            if outcomes[|dialled|].DialFails? then url else if before == url then "" else before
  {
    assert (dialled + [url])[..|dialled|] == dialled;
  }

  /** Dial j goes to the endpoint at (tunnels still to create - 1) modulo the number of endpoints, and then the list is
      demoted or not. */
  ghost predicate DialsAt(list: seq<string>, next: seq<string>, retryFailed: bool, toCreate: int,
                          outcomes: seq<Outcome>, dialled: seq<string>, j: nat)
    requires j < |dialled| <= |outcomes|
  {
    && list != []
    && var i := Index(toCreate - Connections(outcomes[..j]), |list|);
       && dialled[j] == Url(list[i])
       && next == if !retryFailed && outcomes[j].DialFails? && LastFailed(dialled[..j], outcomes) == dialled[j]
                  then Demoted(list, i, dialled[j]) else list
  }

  ghost predicate History(first: seq<string>, last: seq<string>, retryFailed: bool, toCreate: int,
                          outcomes: seq<Outcome>, dialled: seq<string>, lists: seq<seq<string>>) {
    && |lists| == |dialled| + 1 && |dialled| <= |outcomes|
    && lists[0] == first && lists[|dialled|] == last
    && forall j :: 0 <= j < |dialled| ==>
         DialsAt(lists[j], lists[j + 1], retryFailed, toCreate, outcomes, dialled, j)
  }

  lemma HistoryNext(first: seq<string>, last: seq<string>, next: seq<string>, retryFailed: bool, toCreate: int,
                    outcomes: seq<Outcome>, dialled: seq<string>, lists: seq<seq<string>>)
    requires History(first, last, retryFailed, toCreate, outcomes, dialled, lists)
    requires |dialled| < |outcomes| && last != []
    ensures var i := Index(toCreate - Connections(outcomes[..|dialled|]), |last|); var url := Url(last[i]);
            next == (if !retryFailed && outcomes[|dialled|].DialFails? && LastFailed(dialled, outcomes) == url
                     then Demoted(last, i, url) else last) ==>
              History(first, next, retryFailed, toCreate, outcomes, dialled + [url], lists + [next])
  {
    hide Index, Connections, Demoted, Url, LastFailed;
    var n := |dialled|;
    var i := Index(toCreate - Connections(outcomes[..n]), |last|);
    var url := Url(last[i]);
    var all, more := dialled + [url], lists + [next];
    assert all[..n] == dialled;
    assert next == (if !retryFailed && outcomes[n].DialFails? && LastFailed(dialled, outcomes) == url
                    then Demoted(last, i, url) else last) ==>
           DialsAt(last, next, retryFailed, toCreate, outcomes, all, n);
    hide DialsAt;
    forall j | 0 <= j < n ensures DialsAt(more[j], more[j + 1], retryFailed, toCreate, outcomes, all, j) {
      DialsSame(lists[j], lists[j + 1], retryFailed, toCreate, outcomes, dialled, url, j);
    }
  }

  lemma DialsSame(list: seq<string>, next: seq<string>, retryFailed: bool, toCreate: int,
                  outcomes: seq<Outcome>, dialled: seq<string>, url: string, j: nat)
    requires j < |dialled| < |outcomes|
    ensures DialsAt(list, next, retryFailed, toCreate, outcomes, dialled + [url], j) <==>
            DialsAt(list, next, retryFailed, toCreate, outcomes, dialled, j)
  {
    hide Index, Connections, Demoted, Url, LastFailed;
    assert (dialled + [url])[..j] == dialled[..j];
  }

  /** Where the loop stands after some dials of usable endpoints. */
  ghost predicate Tracked(first: seq<string>, last: seq<string>, retryFailed: bool, toCreate: int,
                          outcomes: seq<Outcome>, dialled: seq<string>, lists: seq<seq<string>>,
                          lastfailed: string, created: nat) {
    && Usable(last) && |dialled| <= |outcomes|
    && created == Connections(outcomes[..|dialled|]) && lastfailed == LastFailed(dialled, outcomes)
    && History(first, last, retryFailed, toCreate, outcomes, dialled, lists)
  }

  lemma TrackedFirst(first: seq<string>, retryFailed: bool, toCreate: int, outcomes: seq<Outcome>)
    ensures Connections(outcomes[..0]) == 0
    ensures Usable(first) ==> Tracked(first, first, retryFailed, toCreate, outcomes, [], [first], "", 0)
  {
    StartsEmpty(first, retryFailed, toCreate, outcomes);
  }

  lemma TrackedUsable(first: seq<string>, last: seq<string>, retryFailed: bool, toCreate: int,
                      outcomes: seq<Outcome>, dialled: seq<string>, lists: seq<seq<string>>,
                      lastfailed: string, created: nat)
    requires Tracked(first, last, retryFailed, toCreate, outcomes, dialled, lists, lastfailed, created)
    ensures Usable(last) && |dialled| <= |outcomes| && created == Connections(outcomes[..|dialled|])
    ensures History(first, last, retryFailed, toCreate, outcomes, dialled, lists)
  {
  }

  lemma TrackedNext(first: seq<string>, last: seq<string>, next: seq<string>, retryFailed: bool, toCreate: int,
                    outcomes: seq<Outcome>, dialled: seq<string>, lists: seq<seq<string>>,
                    failed: string, lastfailed: string, created: nat, url: string)
    requires Tracked(first, last, retryFailed, toCreate, outcomes, dialled, lists, failed, created)
    requires |dialled| < |outcomes| && Usable(next) && last != []
    requires var i, outcome := Index(toCreate - created, |last|), outcomes[|dialled|];
             && url == Url(last[i])
             && next == (if !retryFailed && outcome.DialFails? && failed == url then Demoted(last, i, url) else last)
             && lastfailed == (if outcome.DialFails? then url else if failed == url then "" else failed)
    ensures Tracked(first, next, retryFailed, toCreate, outcomes, dialled + [url], lists + [next], lastfailed,
                    created + if outcomes[|dialled|].Connects? then 1 else 0)
  {
    hide Index, Connections, Demoted, Url, LastFailed, History, Usable;
    HistoryNext(first, last, next, retryFailed, toCreate, outcomes, dialled, lists);
    LastFailedNext(dialled, outcomes, url);
    ConnectionsNext(outcomes, |dialled|);
  }

  lemma {:induction false} ConnectionsAppend(a: seq<Outcome>, b: seq<Outcome>)
    ensures Connections(a + b) == Connections(a) + Connections(b)
  {
    if a == [] {
      assert a + b == b;
    } else {
      assert (a + b)[1..] == a[1..] + b;
      ConnectionsAppend(a[1..], b);
    }
  }

  lemma ConnectionsNext(outcomes: seq<Outcome>, k: nat)
    requires k < |outcomes|
    ensures Connections(outcomes[..k + 1]) == Connections(outcomes[..k]) + if outcomes[k].Connects? then 1 else 0
  {
    assert outcomes[..k + 1] == outcomes[..k] + [outcomes[k]];
    ConnectionsAppend(outcomes[..k], [outcomes[k]]);
    assert [outcomes[k]][1..] == [];
  }

  lemma ConnectionsRest(outcomes: seq<Outcome>, k: nat)
    requires k <= |outcomes|
    ensures Connections(outcomes[..k]) <= Connections(outcomes)
    ensures k == |outcomes| ==> outcomes[..k] == outcomes
  {
    assert outcomes == outcomes[..k] + outcomes[k..];
    ConnectionsAppend(outcomes[..k], outcomes[k..]);
  }

  lemma SwapUrls(a: seq<string>, b: seq<string>, i: nat, j: nat)
    requires i < |a| && j < |a| && |a| == |b|
    requires Url(b[j]) == Url(a[i]) && (i != j ==> b[i] == a[j])
    requires forall k :: 0 <= k < |a| && k != i && k != j ==> b[k] == a[k]
    ensures multiset(Urls(b)) == multiset(Urls(a))
  {
    var u := Urls(a);
    if i != j {
      assert Urls(b) == u[i := u[j]][j := u[i]];
    } else {
      assert Urls(b) == u;
    }
  }
}
