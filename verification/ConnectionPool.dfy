/** connection_pool/pool.go: the connection maps of all pools and the counter shared by them. */
module ConnectionPool {
  import opened Bytes

  /** A connection object: its pool, its ID, and whether its removal goroutine has run. */
  datatype Conn = Conn(pool: nat, id: U32, gone: bool)

  /** pools are the connectionMappings, from ID to object; clash records that an ID was drawn that is in use. */
  datatype State = State(pools: seq<map<U32, nat>>, conns: seq<Conn>, counter: int, clash: bool)

  const INIT := State([], [], 0, false)

  datatype Action = NewPool | Accept(p: nat, id: U32) | Dial(p: nat, id: U32) | Remove(o: nat)

  function Put(m: map<U32, nat>, id: U32, o: nat): map<U32, nat> {
    m[id := o]
  }

  /** addConnection. */
  function Add(s: State, p: nat, id: U32): State
    requires p < |s.pools|
  {
    State(s.pools[p := Put(s.pools[p], id, |s.conns|)],
          s.conns + [Conn(p, id, false)],
          s.counter + 1,
          s.clash || id in s.pools[p])
  }

  /** removeConnection, called once for each object. */
  function Drop(s: State, o: nat): State
    requires o < |s.conns| && s.conns[o].pool < |s.pools|
  {
    var c := s.conns[o];
    var t := s.(conns := s.conns[o := c.(gone := true)]);
    if c.id in s.pools[c.pool] then
      t.(pools := s.pools[c.pool := s.pools[c.pool] - {c.id}], counter := s.counter - 1)
    else t
  }

  /** The statistics object shared by all pools. */
  class Stats {
    var connectionCount: int

    constructor ()
      ensures connectionCount == 0
    {
      connectionCount := 0;
    }
  }

  /** The connection maps of some pools. */
  ghost function Maps(pools: seq<Pool>): (maps: seq<map<U32, nat>>)
    reads set p | p in pools
    ensures |maps| == |pools| && forall i :: 0 <= i < |pools| ==> maps[i] == pools[i].connectionMapping
  {
    if pools == [] then []
    else Maps(pools[..|pools| - 1]) + [pools[|pools| - 1].connectionMapping]
  }

  /** Different pools that share their statistics. */
  ghost predicate Sharing(stats: Stats, pools: seq<Pool>) {
    && (forall i :: 0 <= i < |pools| ==> pools[i].stats == stats)
    && (forall i, j :: 0 <= i < j < |pools| ==> pools[i] != pools[j])
  }

  /** The counter is the number of connections in all of them. */
  ghost predicate Counted(stats: Stats, pools: seq<Pool>)
    reads stats, set p | p in pools
  {
    stats.connectionCount == Total(Maps(pools))
  }

  /** One pool. Connection objects are named by numbers. */
  class Pool {
    const stats: Stats
    var connectionMapping: map<U32, nat>

    ghost predicate Is(s: State, p: nat)
      reads this, stats
    {
      p < |s.pools| && s.pools[p] == connectionMapping && s.counter == stats.connectionCount
    }

    constructor (stats: Stats)
      ensures this.stats == stats && connectionMapping == map[]
    {
      this.stats, connectionMapping := stats, map[];
    }

    /** Performs the add step. A correct counter stays correct if and only if the ID was not in use. */
    method AddConnection(id: U32, o: nat, ghost s: State, ghost p: nat, ghost pools: seq<Pool>)
      requires Is(s, p) && o == |s.conns|
      requires Sharing(stats, pools) && p < |pools| && pools[p] == this
      modifies this, stats
      ensures Is(Add(s, p, id), p)
      ensures old(Counted(stats, pools)) ==> (Counted(stats, pools) <==> id !in old(connectionMapping))
    {
      hide Maps, Total;
      ghost var before := Maps(pools);
      PutSize(connectionMapping, id, o);
      TotalUpdate(before, p, Put(connectionMapping, id, o));
      connectionMapping := connectionMapping[id := o];
      stats.connectionCount := stats.connectionCount + 1;
      assert Maps(pools) == before[p := connectionMapping];
    }

    /** Performs the remove step, which keeps a correct counter correct. */
    method RemoveConnection(id: U32, ghost o: nat, ghost s: State, ghost p: nat, ghost pools: seq<Pool>)
      requires Is(s, p) && o < |s.conns| && s.conns[o].pool == p && s.conns[o].id == id
      requires Sharing(stats, pools) && p < |pools| && pools[p] == this
      modifies this, stats
      ensures Is(Drop(s, o), p)
      ensures old(Counted(stats, pools)) ==> Counted(stats, pools)
    {
      hide Maps, Total;
      if id in connectionMapping {
        ghost var before := Maps(pools);
        DropSize(connectionMapping, id);
        TotalUpdate(before, p, connectionMapping - {id});
        connectionMapping := connectionMapping - {id};
        stats.connectionCount := stats.connectionCount - 1;
        assert Maps(pools) == before[p := connectionMapping];
      }
    }
  }

  function Apply(s: State, a: Action): State {
    match a
    case NewPool => s.(pools := s.pools + [map[]])
    case Accept(p, id) =>
      // recvRelay meets a block of an unknown connection
      if p < |s.pools| && id !in s.pools[p] then Add(s, p, id) else s
    case Dial(p, id) =>
      // NewPooledInboundConnection, with a random ID
      if p < |s.pools| then Add(s, p, id) else s
    case Remove(o) =>
      // the goroutine that waits for the connection's context
      if o < |s.conns| && !s.conns[o].gone && s.conns[o].pool < |s.pools| then Drop(s, o) else s
  }

  function Run(actions: seq<Action>): State {
    if actions == [] then INIT else Apply(Run(actions[..|actions| - 1]), actions[|actions| - 1])
  }

  function Total(pools: seq<map<U32, nat>>): nat {
    if pools == [] then 0 else Total(pools[..|pools| - 1]) + |pools[|pools| - 1]|
  }

  lemma {:induction false} TotalUpdate(pools: seq<map<U32, nat>>, p: nat, m: map<U32, nat>)
    requires p < |pools|
    ensures Total(pools[p := m]) == Total(pools) - |pools[p]| + |m|
  {
    var k := |pools| - 1;
    if p < k {
      assert pools[p := m][..k] == pools[..k][p := m];
      TotalUpdate(pools[..k], p, m);
    } else {
      assert pools[p := m][..k] == pools[..k];
    }
  }

  lemma PutSize(m: map<U32, nat>, id: U32, o: nat)
    ensures |Put(m, id, o)| == |m| + if id in m then 0 else 1
  {
    assert Put(m, id, o).Keys == m.Keys + {id};
  }

  lemma DropSize(m: map<U32, nat>, id: U32)
    requires id in m
    ensures |m - {id}| == |m| - 1
  {
    assert (m - {id}).Keys == m.Keys - {id};
  }

  ghost predicate Exact(s: State) {
    s.counter == Total(s.pools)
  }

  /** The maps hold exactly the objects that are not gone, each in its pool under its ID. */
  ghost predicate Mapped(s: State) {
    && (forall o :: 0 <= o < |s.conns| ==>
          && s.conns[o].pool < |s.pools|
          && (!s.conns[o].gone ==>
                s.conns[o].id in s.pools[s.conns[o].pool] && s.pools[s.conns[o].pool][s.conns[o].id] == o))
    && (forall p, id :: 0 <= p < |s.pools| && id in s.pools[p] ==> Holds(s, p, id, s.pools[p][id]))
  }

  ghost predicate Holds(s: State, p: nat, id: U32, o: nat) {
    o < |s.conns| && s.conns[o].pool == p && s.conns[o].id == id && !s.conns[o].gone
  }

  /** Removing an object removes it, whenever that happens. */
  lemma {:induction false} RemovedIsGone(actions: seq<Action>, o: nat)
    requires o < |Run(actions).conns| && !Run(actions).clash
    ensures Run(actions + [Remove(o)]).conns[o].gone
  {
    assert (actions + [Remove(o)])[..|actions|] == actions;
    RunExact(actions);
  }

  lemma ApplyExact(s: State, a: Action)
    requires Exact(s) && Mapped(s) && !Apply(s, a).clash
    ensures Exact(Apply(s, a)) && Mapped(Apply(s, a))
  {
    match a {
      case NewPool =>
        assert (s.pools + [map[]])[..|s.pools|] == s.pools;
      case Accept(p, id) =>
        if p < |s.pools| && id !in s.pools[p] {
          AddExact(s, p, id);
        }
      case Dial(p, id) =>
        if p < |s.pools| {
          AddExact(s, p, id);
        }
      case Remove(o) =>
        RemoveExact(s, o);
    }
  }

  lemma AddExact(s: State, p: nat, id: U32)
    requires Exact(s) && Mapped(s) && p < |s.pools| && id !in s.pools[p]
    ensures Exact(Add(s, p, id)) && Mapped(Add(s, p, id))
  {
    PutSize(s.pools[p], id, |s.conns|);
    hide Total, Mapped;
    TotalUpdate(s.pools, p, Put(s.pools[p], id, |s.conns|));
    AddMapped(s, p, id);
  }

  lemma AddMapped(s: State, p: nat, id: U32)
    requires Mapped(s) && p < |s.pools| && id !in s.pools[p]
    ensures Mapped(Add(s, p, id))
  {
    var t := Add(s, p, id);
    forall q, i | 0 <= q < |t.pools| && i in t.pools[q] ensures Holds(t, q, i, t.pools[q][i]) {
      if !(q == p && i == id) {
        assert Holds(s, q, i, s.pools[q][i]);
      }
    }
  }

  lemma RemoveExact(s: State, o: nat)
    requires Exact(s) && Mapped(s)
    ensures Exact(Apply(s, Remove(o))) && Mapped(Apply(s, Remove(o)))
  {
    if o < |s.conns| && !s.conns[o].gone {
      var c := s.conns[o];
      DropSize(s.pools[c.pool], c.id);
      DropMapped(s, o);
      hide Total;
      TotalUpdate(s.pools, c.pool, s.pools[c.pool] - {c.id});
    }
  }

  lemma DropMapped(s: State, o: nat)
    requires Mapped(s) && o < |s.conns| && !s.conns[o].gone
    ensures Mapped(Drop(s, o))
  {
    var t, c := Drop(s, o), s.conns[o];
    forall q, i | 0 <= q < |t.pools| && i in t.pools[q] ensures Holds(t, q, i, t.pools[q][i]) {
      assert Holds(s, q, i, s.pools[q][i]);
    }
  }

  lemma ClashStays(s: State, a: Action)
    ensures s.clash ==> Apply(s, a).clash
  {
  }

  lemma ClashDrifts(s: State, a: Action)
    requires Exact(s) && !s.clash && Apply(s, a).clash
    ensures !Exact(Apply(s, a))
  {
    PutSize(s.pools[a.p], a.id, |s.conns|);
    TotalUpdate(s.pools, a.p, Put(s.pools[a.p], a.id, |s.conns|));
  }

  lemma {:induction false} RunExact(actions: seq<Action>)
    requires !Run(actions).clash
    ensures Exact(Run(actions)) && Mapped(Run(actions))
  {
    if actions != [] {
      RunExact(actions[..|actions| - 1]);
      ApplyExact(Run(actions[..|actions| - 1]), actions[|actions| - 1]);
    }
  }

  /** The counter is exact in every state of a run. */
  ghost predicate ExactThroughout(actions: seq<Action>) {
    forall m :: 0 <= m <= |actions| ==> Exact(Run(actions[..m]))
  }

  lemma {:induction false} ThroughoutSnoc(actions: seq<Action>)
    requires actions != []
    ensures ExactThroughout(actions) <==> ExactThroughout(actions[..|actions| - 1]) && Exact(Run(actions))
  {
    hide Exact, Run;
    var init := actions[..|actions| - 1];
    assert actions[..|actions|] == actions;
    assert forall m :: 0 <= m < |actions| ==> actions[..m] == init[..m];
    if ExactThroughout(actions) {
      forall m | 0 <= m <= |init| ensures Exact(Run(init[..m])) {
        assert Exact(Run(actions[..m]));
      }
      assert Exact(Run(actions[..|actions|]));
    }
    if ExactThroughout(init) && Exact(Run(actions)) {
      forall m | 0 <= m <= |actions| ensures Exact(Run(actions[..m])) {
        if m < |actions| {
          assert Exact(Run(init[..m]));
        }
      }
    }
  }

  /** The counter equals the number of mapped connections in every state of a run exactly when no ID was ever drawn
      that was in use. */
  lemma {:induction false} CounterExactIffNoClash(actions: seq<Action>)
    ensures ExactThroughout(actions) <==> !Run(actions).clash
  {
    if actions == [] {
      assert forall m :: 0 <= m <= |actions| ==> actions[..m] == [];
    } else {
      var init, a := actions[..|actions| - 1], actions[|actions| - 1];
      assert Run(actions) == Apply(Run(init), a);
      hide Run, Apply, Exact, Mapped, ExactThroughout;
      ClashStays(Run(init), a);
      ThroughoutSnoc(actions);
      CounterExactIffNoClash(init);
      if !Run(actions).clash {
        RunExact(actions);
      } else if !Run(init).clash {
        RunExact(init);
        ClashDrifts(Run(init), a);
      }
    }
  }

  /** On the accepting side no add replaces a live connection, even when an ID comes back after its removal. */
  lemma {:induction false} AcceptingNeverClashes(actions: seq<Action>)
    requires forall i :: 0 <= i < |actions| ==> !actions[i].Dial?
    ensures !Run(actions).clash && Exact(Run(actions)) && Mapped(Run(actions))
  {
    if actions != [] {
      AcceptingNeverClashes(actions[..|actions| - 1]);
      ApplyExact(Run(actions[..|actions| - 1]), actions[|actions| - 1]);
    }
  }

  /** On the dialling side the drift outlives both connections. */
  lemma ClashLeavesCounterHigh()
    ensures var s := Run([NewPool, Dial(0, 5), Dial(0, 5), Remove(0), Remove(1)]); s.counter == 1 && s.pools == [map[]]
  {
    var a := [NewPool, Dial(0, 5), Dial(0, 5), Remove(0), Remove(1)];
    assert a[..4] == [NewPool, Dial(0, 5), Dial(0, 5), Remove(0)];
    assert a[..4][..3] == [NewPool, Dial(0, 5), Dial(0, 5)];
    assert a[..4][..3][..2] == [NewPool, Dial(0, 5)];
    assert a[..4][..3][..2][..1] == [NewPool];
    assert a[..4][..3][..2][..1][..0] == [];
    assert Put(map[], 5, 0) == map[5 := 0] && Put(map[5 := 0], 5, 1) == map[5 := 1];
    assert Run([NewPool]).pools == [map[]];
    assert Run([NewPool, Dial(0, 5)]).pools == [map[5 := 0]];
    assert Run([NewPool, Dial(0, 5), Dial(0, 5)]).pools == [map[5 := 1]];
    assert map[5 := 1] - {5} == map[];
    assert Run([NewPool, Dial(0, 5), Dial(0, 5), Remove(0)]).pools == [map[]];
  }
}
