/** connection/block_processor.go: OrderedRelay turns blocks that arrive in any order, any number of times and
    with gaps into the longest gap-free run of blocks. */
module Reorder {
  import opened Bytes
  import opened Blocks

  const MAX_ID: U32 := TWO_32 - 1

  /** x++ on a uint32. */
  function Succ(x: U32): U32 {
    (x + 1) % TWO_32
  }

  /** next is recvBlockID, last is lastRecvBlockID, out is everything ever put on the ordered queue. */
  datatype State = State(next: U32, last: U32, cache: map<U32, Block>, out: seq<Block>)

  const INIT := State(0, 0, map[], [])

  function Drain(s: State): State
    decreases |s.cache|
  {
    if s.next in s.cache then
      DropShrinks(s.cache, s.next);
      Drain(State(Succ(s.next), s.last, s.cache - {s.next}, s.out + [s.cache[s.next]]))
    else s
  }

  lemma DropShrinks(m: map<U32, Block>, k: U32)
    requires k in m
    ensures |m - {k}| < |m|
  {
    assert (m - {k}).Keys == m.Keys - {k};
    assert |m.Keys| == |m.Keys - {k}| + 1;
  }

  function Note(s: State, id: U32): State {
    if Succ(id) > s.last then s.(last := Succ(id)) else s
  }

  function Receive(s: State, b: Block): State {
    var noted := Note(s, b.blockID);
    if s.next == b.blockID then Drain(noted.(next := Succ(s.next), out := s.out + [b]))
    else if b.blockID < s.next then noted
    else noted.(cache := s.cache[b.blockID := b])
  }

  /** The relay itself. arrivals is history: everything it has received. */
  class BlockProcessor {
    var cache: map<U32, Block>
    var recvBlockID: U32
    var lastRecvBlockID: U32
    var orderedRecvQueue: seq<Block>
    var removedFromPool: bool
    ghost var arrivals: seq<Block>

    function View(): State
      reads this
    {
      State(recvBlockID, lastRecvBlockID, cache, orderedRecvQueue)
    }

    ghost predicate Valid()
      reads this
    {
      View() == Run(arrivals)
    }

    constructor ()
      ensures Valid() && arrivals == [] && !removedFromPool
    {
      cache, recvBlockID, lastRecvBlockID, orderedRecvQueue := map[], 0, 0, [];
      removedFromPool, arrivals := false, [];
    }

    /** The receive arm of the select. */
    method OnBlock(b: Block)
      requires Valid()
      modifies this
      ensures Valid() && arrivals == old(arrivals) + [b]
      ensures View() == Receive(old(View()), b)
      ensures removedFromPool == old(removedFromPool)
    {
      RunSnoc(arrivals, b);
      hide Run;
      ghost var before := View();
      arrivals := arrivals + [b];
      if Succ(b.blockID) > lastRecvBlockID {
        lastRecvBlockID := Succ(b.blockID);
      }
      if recvBlockID == b.blockID {
        orderedRecvQueue := orderedRecvQueue + [b];
        recvBlockID := Succ(recvBlockID);
        ghost var start := View();
        assert Receive(before, b) == Drain(start);
        while recvBlockID in cache
          invariant Drain(View()) == Drain(start)
          invariant arrivals == old(arrivals) + [b] && removedFromPool == old(removedFromPool)
          decreases |cache|
        {
          DropShrinks(cache, recvBlockID);
          orderedRecvQueue := orderedRecvQueue + [cache[recvBlockID]];
          cache := cache - {recvBlockID};
          recvBlockID := Succ(recvBlockID);
        }
      } else if b.blockID >= recvBlockID {
        cache := cache[b.blockID := b];
      }
    }

    /** The timeout arm. While an ID is missing it kills the connection exactly when a block is held behind a missing
        one, other than the last ID alone; when all 2^32 have been received, exactly unless all but the last of them
        have been received once more. */
    method OnTimeout() returns (kill: bool)
      requires Valid()
      modifies this`removedFromPool
      ensures var received := Kept(arrivals);
              kill <==> if Incomplete(received) then Hole(received) && !LastAlone(received)
                        else !AllButLast(Kept(Lap(arrivals)))
      ensures removedFromPool <==> old(removedFromPool) || kill
    {
      KillsWhen(arrivals);
      kill := recvBlockID != lastRecvBlockID;
      if kill {
        removedFromPool := true;
      }
    }
  }

  predicate Kills(s: State) {
    s.next != s.last
  }

  function Run(arrivals: seq<Block>): State {
    if arrivals == [] then INIT else Receive(Run(arrivals[..|arrivals| - 1]), arrivals[|arrivals| - 1])
  }

  lemma RunSnoc(arrivals: seq<Block>, b: Block)
    ensures Run(arrivals + [b]) == Receive(Run(arrivals), b)
  {
    assert (arrivals + [b])[..|arrivals|] == arrivals;
  }

  /** Copies of a block agree: a retransmission is identical to the original. */
  ghost predicate Consistent(arrivals: seq<Block>) {
    forall i, j :: 0 <= i < |arrivals| && 0 <= j < |arrivals| && arrivals[i].blockID == arrivals[j].blockID
                   ==> arrivals[i] == arrivals[j]
  }

  /** All IDs up to this one have been received. */
  ghost predicate PassedBy(received: map<U32, Block>, id: U32) {
    forall i: U32 :: i <= id ==> i in received
  }

  /** What counts as received, by block ID: copies may differ, and the last one counts that came before all IDs up to it
      had been received. */
  ghost function Kept(arrivals: seq<Block>): map<U32, Block> {
    if arrivals == [] then map[] else KeepNext(Kept(arrivals[..|arrivals| - 1]), arrivals[|arrivals| - 1])
  }

  ghost function KeepNext(received: map<U32, Block>, b: Block): map<U32, Block> {
    if PassedBy(received, b.blockID) then received else received[b.blockID := b]
  }

  ghost predicate Incomplete(received: map<U32, Block>) {
    exists id: U32 :: id !in received
  }

  /** The specification: next is the least ID never received, the output is the received blocks below it in
      order, the cache is the received blocks above it, last is one past the greatest ID received. */
  ghost predicate Refines(s: State, received: map<U32, Block>) {
    && s.next !in received
    && Prefix(s, received)
    && LastSeen(s, received)
  }

  ghost predicate Prefix(s: State, received: map<U32, Block>) {
    && |s.out| == s.next
    && (forall i: U32 :: i < s.next ==> i in received && s.out[i] == received[i])
    && (forall i :: i in s.cache ==> s.next <= i && i in received && s.cache[i] == received[i])
    && (forall i :: i in received && s.next <= i ==> i in s.cache)
  }

  ghost predicate LastSeen(s: State, received: map<U32, Block>) {
    && (s.last == 0 || s.last - 1 in received)
    && (forall i :: i in received && i != MAX_ID ==> i < s.last)
  }

  lemma PopRefines(s: State, received: map<U32, Block>)
    requires Prefix(s, received) && s.next in s.cache && s.next < MAX_ID
    ensures Prefix(State(Succ(s.next), s.last, s.cache - {s.next}, s.out + [s.cache[s.next]]), received)
  {
  }

  lemma NotLast(s: State, received: map<U32, Block>)
    requires Prefix(s, received) && s.next in received && Incomplete(received)
    ensures s.next < MAX_ID
  {
    if s.next == MAX_ID {
      assert forall i: U32 :: i in received;
      assert false;
    }
  }

  lemma {:induction false} DrainRefines(s: State, received: map<U32, Block>)
    requires Prefix(s, received) && LastSeen(s, received)
    requires Incomplete(received)
    ensures Refines(Drain(s), received)
    decreases |s.cache|
  {
    if s.next in s.cache {
      hide Incomplete;
      NotLast(s, received);
      PopRefines(s, received);
      DropShrinks(s.cache, s.next);
      DrainRefines(State(Succ(s.next), s.last, s.cache - {s.next}, s.out + [s.cache[s.next]]), received);
    }
  }

  lemma NoteRefines(s: State, received: map<U32, Block>, b: Block)
    requires LastSeen(s, received)
    ensures LastSeen(Note(s, b.blockID), KeepNext(received, b))
  {
    assert b.blockID in KeepNext(received, b);
  }

  lemma DirectRefines(s: State, received: map<U32, Block>, b: Block)
    requires Refines(s, received)
    requires b.blockID == s.next
    requires Incomplete(received[b.blockID := b])
    ensures s.next != MAX_ID
    ensures Prefix(s.(next := Succ(s.next), out := s.out + [b]), received[b.blockID := b])
  {
    var received' := received[b.blockID := b];
    if s.next == MAX_ID {
      assert forall i: U32 :: i in received';
      assert false;
    }
  }

  lemma CacheRefines(s: State, received: map<U32, Block>, b: Block)
    requires Prefix(s, received) && s.next !in received
    requires b.blockID > s.next
    ensures s.next !in received[b.blockID := b]
    ensures Prefix(s.(cache := s.cache[b.blockID := b]), received[b.blockID := b])
  {
  }

  /** The IDs that have been passed by are those below next. */
  lemma PassedBelow(s: State, received: map<U32, Block>, id: U32)
    requires Prefix(s, received) && s.next !in received
    ensures PassedBy(received, id) <==> id < s.next
  {
  }

  lemma ReceiveRefines(s: State, received: map<U32, Block>, b: Block)
    requires Refines(s, received)
    requires Incomplete(KeepNext(received, b))
    ensures Refines(Receive(s, b), KeepNext(received, b))
  {
    PassedBelow(s, received, b.blockID);
    hide Prefix, LastSeen, Incomplete, Drain, PassedBy;
    NoteRefines(s, received, b);
    var received' := KeepNext(received, b);
    if s.next == b.blockID {
      DirectRefines(s, received, b);
      NotePrefix(s.(next := Succ(s.next), out := s.out + [b]), b.blockID, received');
      NoteLast(s, b.blockID, Succ(s.next), s.cache, s.out + [b], received');
      DrainRefines(Note(s, b.blockID).(next := Succ(s.next), out := s.out + [b]), received');
    } else if b.blockID < s.next {
      NotePrefix(s, b.blockID, received');
    } else {
      var cache := s.cache[b.blockID := b];
      CacheRefines(s, received, b);
      NotePrefix(s.(cache := cache), b.blockID, received');
      NoteLast(s, b.blockID, s.next, cache, s.out, received');
    }
  }

  /** Prefix does not look at last, and LastSeen looks at nothing else. */
  lemma NotePrefix(s: State, id: U32, received: map<U32, Block>)
    requires Prefix(s, received)
    ensures Prefix(Note(s, id), received)
  {
  }

  lemma NoteLast(s: State, id: U32, next: U32, cache: map<U32, Block>, out: seq<Block>, received: map<U32, Block>)
    requires LastSeen(Note(s, id), received)
    ensures LastSeen(Note(s, id).(next := next, cache := cache, out := out), received)
  {
  }

  /** Everything that arrived counts under its ID, and what counts arrived. */
  lemma {:induction false} KeptSpec(arrivals: seq<Block>)
    ensures forall b :: b in arrivals ==> b.blockID in Kept(arrivals)
    ensures forall id :: id in Kept(arrivals) ==> Kept(arrivals)[id] in arrivals && Kept(arrivals)[id].blockID == id
  {
    if arrivals != [] {
      var init, b := arrivals[..|arrivals| - 1], arrivals[|arrivals| - 1];
      assert arrivals == init + [b];
      KeptSpec(init);
    }
  }

  /** When copies agree, every one counts. */
  lemma KeptConsistent(arrivals: seq<Block>)
    requires Consistent(arrivals)
    ensures forall b :: b in arrivals ==> b.blockID in Kept(arrivals) && Kept(arrivals)[b.blockID] == b
  {
    KeptSpec(arrivals);
    hide Kept;
  }

  lemma Grows(received: map<U32, Block>, b: Block)
    requires Incomplete(KeepNext(received, b))
    ensures Incomplete(received)
  {
    var id: U32 :| id !in KeepNext(received, b);
    assert id !in received;
  }

  /** After every arrival sequence that leaves some ID unseen, also one whose copies differ, the relay is exactly the
      specification. */
  lemma {:induction false} RunRefines(arrivals: seq<Block>)
    requires Incomplete(Kept(arrivals))
    ensures Refines(Run(arrivals), Kept(arrivals))
  {
    if arrivals != [] {
      var init, b := arrivals[..|arrivals| - 1], arrivals[|arrivals| - 1];
      assert Kept(arrivals) == KeepNext(Kept(init), b) && Run(arrivals) == Receive(Run(init), b);
      hide Kept, Run, Receive, KeepNext, Refines;
      Grows(Kept(init), b);
      RunRefines(init);
      ReceiveRefines(Run(init), Kept(init), b);
    }
  }

  lemma RefinesUnique(s: State, t: State, received: map<U32, Block>)
    requires Refines(s, received) && Refines(t, received)
    ensures s == t
  {
    assert s.out == t.out;
    assert s.cache == t.cache;
  }

  lemma RefinesTells(s: State, received: map<U32, Block>, received': map<U32, Block>)
    requires Refines(s, received) && Refines(s, received')
    ensures received == received'
  {
    forall i: U32 ensures i in received <==> i in received' {
    }
    forall i: U32 | i in received ensures received[i] == received'[i] {
    }
  }

  /** While an ID is missing, two arrival sequences lead to the same state if and only if the same counts as
      received. */
  lemma {:induction false} SameState(a: seq<Block>, b: seq<Block>)
    requires Incomplete(Kept(a)) && Incomplete(Kept(b))
    ensures Run(a) == Run(b) <==> Kept(a) == Kept(b)
  {
    RunRefines(a);
    RunRefines(b);
    hide Run, Kept, Incomplete, Refines;
    if Kept(a) == Kept(b) {
      RefinesUnique(Run(a), Run(b), Kept(a));
    }
    if Run(a) == Run(b) {
      RefinesTells(Run(a), Kept(a), Kept(b));
    }
  }

  lemma {:induction false} SameKept(a: seq<Block>, b: seq<Block>)
    requires Consistent(a) && Consistent(b)
    requires forall x :: x in a <==> x in b
    ensures Kept(a) == Kept(b)
  {
    KeptSpec(a);
    KeptSpec(b);
    KeptConsistent(a);
    KeptConsistent(b);
    hide Kept, Consistent;
    forall id ensures id in Kept(a) <==> id in Kept(b) {
    }
    forall id | id in Kept(a) ensures Kept(a)[id] == Kept(b)[id] {
      assert Kept(a)[id] in b;
    }
  }

  /** So with copies that agree the order of arrivals and their duplicates leave no trace: only the set received
      matters. */
  lemma {:induction false} Confluent(a: seq<Block>, b: seq<Block>)
    requires Consistent(a) && Consistent(b)
    requires forall x :: x in a <==> x in b
    requires Incomplete(Kept(a))
    ensures Run(a) == Run(b)
  {
    hide Run, Kept, Consistent;
    SameKept(a, b);
    SameState(a, b);
  }

  // ---------------------------------------------------------------- past the last ID

  lemma {:induction false} DrainExtends(s: State)
    ensures s.out <= Drain(s).out
    decreases |s.cache|
  {
    if s.next in s.cache {
      DropShrinks(s.cache, s.next);
      DrainExtends(State(Succ(s.next), s.last, s.cache - {s.next}, s.out + [s.cache[s.next]]));
    }
  }

  lemma ReceiveExtends(s: State, b: Block)
    ensures s.out <= Receive(s, b).out
  {
    if s.next == b.blockID {
      DrainExtends(Note(s, b.blockID).(next := Succ(s.next), out := s.out + [b]));
    }
  }

  lemma SuccCounts(n: nat)
    ensures Succ(n % TWO_32) == (n + 1) % TWO_32
  {
  }

  lemma {:induction false} DrainCounts(s: State)
    requires s.next == |s.out| % TWO_32
    ensures Drain(s).next == |Drain(s).out| % TWO_32 && Drain(s).last == s.last
    decreases |s.cache|
  {
    if s.next in s.cache {
      DropShrinks(s.cache, s.next);
      SuccCounts(|s.out|);
      DrainCounts(State(Succ(s.next), s.last, s.cache - {s.next}, s.out + [s.cache[s.next]]));
    }
  }

  /** In every run next counts the blocks put out, and last is one past the greatest ID received (but for the last ID,
      whose successor is zero). */
  lemma {:induction false} RunCounts(arrivals: seq<Block>)
    ensures Run(arrivals).next == |Run(arrivals).out| % TWO_32
    ensures LastSeen(Run(arrivals), Kept(arrivals))
  {
    if arrivals != [] {
      var init, b := arrivals[..|arrivals| - 1], arrivals[|arrivals| - 1];
      RunCounts(init);
      assert Kept(arrivals) == KeepNext(Kept(init), b);
      var s := Run(init);
      NoteRefines(s, Kept(init), b);
      hide Kept, KeepNext;
      if s.next == b.blockID {
        SuccCounts(|s.out|);
        DrainCounts(Note(s, b.blockID).(next := Succ(s.next), out := s.out + [b]));
      }
    }
  }

  /** The output is the longest gap-free run of what was received, which may be all of it. */
  ghost predicate Longest(out: seq<Block>, received: map<U32, Block>) {
    && |out| <= TWO_32
    && (forall i: U32 :: i < |out| ==> i in received && out[i] == received[i])
    && (|out| < TWO_32 ==> |out| !in received)
  }

  /** A copy of block 0 arrived after all 2^32 IDs had been received. */
  ghost predicate Replayed(arrivals: seq<Block>) {
    exists k :: ReplayAt(arrivals, k)
  }

  ghost predicate ReplayAt(arrivals: seq<Block>, k: int) {
    0 <= k < |arrivals| && arrivals[k].blockID == 0 && !Incomplete(Kept(arrivals[..k]))
  }

  /** All IDs have come and gone: the counter is back at zero and the output is whole. */
  ghost predicate Wrapped(s: State, received: map<U32, Block>) {
    && s.next == 0 && 0 !in s.cache
    && |s.out| == TWO_32
    && (forall i: U32 :: i in received && s.out[i] == received[i])
  }

  lemma {:induction false} DrainWraps(s: State, received: map<U32, Block>)
    requires !Incomplete(received)
    requires Prefix(s, received) && s.next > 0
    ensures Wrapped(Drain(s), received) && Drain(s).cache == map[]
    decreases |s.cache|
  {
    assert s.next in received && s.next in s.cache;
    DropShrinks(s.cache, s.next);
    var t := State(Succ(s.next), s.last, s.cache - {s.next}, s.out + [s.cache[s.next]]);
    assert Drain(s) == Drain(t);
    if s.next < MAX_ID {
      PopRefines(s, received);
      hide Prefix, Wrapped;
      DrainWraps(t, received);
    } else {
      hide Incomplete;
      assert t.next == 0 && t.cache == map[] && Drain(t) == t;
    }
  }

  /** The last missing ID arrives. */
  lemma CompletingWraps(s: State, received: map<U32, Block>, b: Block)
    requires Refines(s, received)
    requires !Incomplete(KeepNext(received, b))
    ensures Wrapped(Receive(s, b), KeepNext(received, b)) && Receive(s, b).cache == map[]
  {
    PassedBelow(s, received, b.blockID);
    var received' := received[b.blockID := b];
    assert s.next in KeepNext(received, b);
    assert b.blockID == s.next && KeepNext(received, b) == received';
    var t := Note(s, b.blockID).(next := Succ(s.next), out := s.out + [b]);
    if s.next < MAX_ID {
      assert Prefix(t, received');
      DrainWraps(t, received');
    } else {
      assert t.cache == map[] && Drain(t) == t;
    }
  }

  /** Later copies wait in the cache, until one of block 0 comes. */
  lemma WrappedWaits(s: State, received: map<U32, Block>, b: Block)
    requires Wrapped(s, received)
    ensures b.blockID != 0 ==> Wrapped(Receive(s, b), received)
    ensures b.blockID == 0 ==> |Receive(s, b).out| > TWO_32
  {
    if b.blockID == 0 {
      DrainExtends(Note(s, 0).(next := 1, out := s.out + [b]));
    }
  }

  lemma ReplayedSnoc(arrivals: seq<Block>, b: Block)
    ensures Replayed(arrivals + [b]) <==>
            Replayed(arrivals) || (b.blockID == 0 && !Incomplete(Kept(arrivals)))
  {
    var all := arrivals + [b];
    forall k | 0 <= k < |arrivals| ensures ReplayAt(all, k) <==> ReplayAt(arrivals, k) {
      assert all[..k] == arrivals[..k];
    }
    assert all[..|arrivals|] == arrivals;
    assert ReplayAt(all, |arrivals|) <==> b.blockID == 0 && !Incomplete(Kept(arrivals));
    hide Kept, Incomplete;
    if k :| ReplayAt(arrivals, k) {
      assert ReplayAt(all, k);
    }
    if k :| ReplayAt(all, k) {
      assert k < |arrivals| ==> ReplayAt(arrivals, k);
    }
  }

  lemma CompleteStays(received: map<U32, Block>, b: Block)
    requires !Incomplete(received)
    ensures KeepNext(received, b) == received
  {
  }

  /** Every run is in one of three stages. */
  lemma {:induction false} RunStages(arrivals: seq<Block>)
    ensures var s, received := Run(arrivals), Kept(arrivals);
            if Incomplete(received) then Refines(s, received) && !Replayed(arrivals)
            else if Replayed(arrivals) then |s.out| > TWO_32
            else Wrapped(s, received)
  {
    if arrivals == [] {
      var zero: U32 := 0;
      assert zero !in Kept(arrivals);
    } else {
      var init, b := arrivals[..|arrivals| - 1], arrivals[|arrivals| - 1];
      assert arrivals == init + [b];
      ReplayedSnoc(init, b);
      var s, received := Run(init), Kept(init);
      assert Run(arrivals) == Receive(s, b) && Kept(arrivals) == KeepNext(received, b);
      hide Run, Kept, KeepNext, Incomplete, Replayed, Receive, Refines, Wrapped;
      RunStages(init);
      if Incomplete(KeepNext(received, b)) {
        Grows(received, b);
        ReceiveRefines(s, received, b);
      } else if Incomplete(received) {
        CompletingWraps(s, received, b);
      } else {
        CompleteStays(received, b);
        ReceiveExtends(s, b);
        if !Replayed(init) {
          WrappedWaits(s, received, b);
        }
      }
    }
  }

  /** In every run the output is the longest gap-free run of what counts as received, if and only if no copy of block 0
      arrives after all 2^32 IDs. */
  lemma {:induction false} OutputExact(arrivals: seq<Block>)
    ensures Longest(Run(arrivals).out, Kept(arrivals)) <==> !Replayed(arrivals)
  {
    RunStages(arrivals);
    hide Run, Kept, Replayed;
  }

  /** And until then, with copies that agree, the output depends only on the set received, also when that is all IDs. */
  lemma {:induction false} OutputConfluent(a: seq<Block>, b: seq<Block>)
    requires Consistent(a) && Consistent(b) && !Replayed(a) && !Replayed(b)
    requires forall x :: x in a <==> x in b
    ensures Run(a).out == Run(b).out
  {
    hide Run, Kept, Replayed, Consistent;
    SameKept(a, b);
    OutputExact(a);
    OutputExact(b);
    LongestUnique(Run(a).out, Run(b).out, Kept(a));
  }

  /** The output is made of one list's blocks, each at the place its ID names. */
  ghost predicate FromList(arrivals: seq<Block>, issued: seq<Block>) {
    forall i: U32 :: PassedBy(Kept(arrivals), i) ==> Kept(arrivals)[i] in issued
  }

  ghost predicate Placed(issued: seq<Block>) {
    |issued| <= TWO_32 && forall i :: 0 <= i < |issued| ==> issued[i].blockID == i
  }

  /** In every run, whatever arrives, and for every list of blocks numbered from zero: the output is a prefix of
      that list if and only if block 0 was not replayed and all that counts and has been passed by is from that list. */
  lemma {:induction false} OneListExact(arrivals: seq<Block>, issued: seq<Block>)
    requires Placed(issued)
    ensures Run(arrivals).out <= issued <==> !Replayed(arrivals) && FromList(arrivals, issued)
  {
    OutputExact(arrivals);
    RunStages(arrivals);
    KeptSpec(arrivals);
    hide Run, Replayed, Kept, Refines, Wrapped;
    if !Replayed(arrivals) {
      LongestPlaced(Run(arrivals).out, Kept(arrivals), issued);
    }
  }

  lemma PassedByLongest(out: seq<Block>, received: map<U32, Block>, id: U32)
    requires Longest(out, received)
    ensures PassedBy(received, id) <==> id < |out|
  {
    if |out| <= id {
      var end: U32 := |out|;
      assert end !in received;
    }
  }

  lemma LongestPlaced(out: seq<Block>, received: map<U32, Block>, issued: seq<Block>)
    requires Longest(out, received) && Placed(issued)
    requires forall id :: id in received ==> received[id].blockID == id
    ensures out <= issued <==> forall i: U32 :: PassedBy(received, i) ==> received[i] in issued
  {
    forall i: U32 ensures PassedBy(received, i) <==> i < |out| {
      PassedByLongest(out, received, i);
    }
    hide PassedBy;
    if out <= issued {
      forall i: U32 | PassedBy(received, i) ensures received[i] in issued {
        assert out[i] == issued[i];
      }
    }
    if forall i: U32 :: PassedBy(received, i) ==> received[i] in issued {
      forall i: U32 | i < |out| ensures i < |issued| && out[i] == issued[i] {
        assert PassedBy(received, i);
        assert received[i] in issued;
      }
      if out != [] {
        var last: U32 := |out| - 1;
        assert PassedBy(received, last);
      }
    }
  }

  lemma LongestUnique(x: seq<Block>, y: seq<Block>, received: map<U32, Block>)
    requires Longest(x, received) && Longest(y, received)
    ensures x == y
  {
    assert |x| == |y|;
  }

  // ---------------------------------------------------------------- laps

  /** What has arrived since all IDs were last complete. */
  ghost function Lap(arrivals: seq<Block>): seq<Block> {
    if arrivals == [] then []
    else
      var lap := Lap(arrivals[..|arrivals| - 1]) + [arrivals[|arrivals| - 1]];
      if Incomplete(Kept(lap)) then lap else []
  }

  /** What was put out up to then: all blocks of every complete lap. */
  ghost function Done(arrivals: seq<Block>): seq<Block> {
    if arrivals == [] then []
    else
      var init := arrivals[..|arrivals| - 1];
      var lap := Lap(init) + [arrivals[|arrivals| - 1]];
      if Incomplete(Kept(lap)) then Done(init) else Done(init) + Run(lap).out
  }

  /** s has got where t got, after putting out some blocks before. */
  ghost predicate Ahead(s: State, t: State, before: seq<Block>) {
    s.next == t.next && s.cache == t.cache && s.out == before + t.out
  }

  lemma {:induction false} DrainAhead(s: State, t: State, before: seq<Block>)
    requires Ahead(s, t, before)
    ensures Ahead(Drain(s), Drain(t), before)
    decreases |s.cache|
  {
    if s.next in s.cache {
      DropShrinks(s.cache, s.next);
      Assoc(before, t.out, [s.cache[s.next]]);
      DrainAhead(State(Succ(s.next), s.last, s.cache - {s.next}, s.out + [s.cache[s.next]]),
                 State(Succ(t.next), t.last, t.cache - {t.next}, t.out + [t.cache[t.next]]), before);
    }
  }

  lemma ReceiveAhead(s: State, t: State, before: seq<Block>, b: Block)
    requires Ahead(s, t, before)
    ensures Ahead(Receive(s, b), Receive(t, b), before)
  {
    if s.next == b.blockID {
      Assoc(before, t.out, [b]);
      DrainAhead(Note(s, b.blockID).(next := Succ(s.next), out := s.out + [b]),
                 Note(t, b.blockID).(next := Succ(t.next), out := t.out + [b]), before);
    }
  }

  /** A lap that becomes complete has put out all 2^32 blocks and leaves nothing behind. */
  lemma {:induction false} LapEnds(lap: seq<Block>, b: Block)
    requires Incomplete(Kept(lap)) && !Incomplete(Kept(lap + [b]))
    ensures var s := Run(lap + [b]); s.next == 0 && s.cache == map[] && |s.out| == TWO_32
  {
    assert (lap + [b])[..|lap|] == lap;
    assert Run(lap + [b]) == Receive(Run(lap), b) && Kept(lap + [b]) == KeepNext(Kept(lap), b);
    RunRefines(lap);
    hide Run, Kept, KeepNext, Receive, Refines, Incomplete;
    CompletingWraps(Run(lap), Kept(lap), b);
  }

  /** The relay in every run whatsoever: it starts over whenever all IDs are complete. Its counter and cache are
      those of the present lap, and its output is that of the complete laps followed by that of the present one. */
  lemma {:induction false} RunLaps(arrivals: seq<Block>)
    ensures Incomplete(Kept(Lap(arrivals)))
    ensures Ahead(Run(arrivals), Run(Lap(arrivals)), Done(arrivals))
    ensures |Done(arrivals)| % TWO_32 == 0
  {
    StartsOver();
    if arrivals != [] {
      LapStep(arrivals);
      hide Run, Receive, Kept, Lap, Done, Incomplete;
      var init, b := arrivals[..|arrivals| - 1], arrivals[|arrivals| - 1];
      var lap := Lap(init);
      RunLaps(init);
      RunSnoc(lap, b);
      ReceiveAhead(Run(init), Run(lap), Done(init), b);
      if !Incomplete(Kept(lap + [b])) {
        LapEnds(lap, b);
        LapDone(Done(init), Run(lap + [b]).out);
      }
    }
  }

  lemma LapDone(done: seq<Block>, lap: seq<Block>)
    requires |done| % TWO_32 == 0 && |lap| == TWO_32
    ensures |done + lap| % TWO_32 == 0 && done + lap + [] == done + lap
  {
  }

  lemma LapStep(arrivals: seq<Block>)
    requires arrivals != []
    ensures var init, b := arrivals[..|arrivals| - 1], arrivals[|arrivals| - 1];
            var lap := Lap(init) + [b];
            && Run(arrivals) == Receive(Run(init), b)
            && Lap(arrivals) == (if Incomplete(Kept(lap)) then lap else [])
            && Done(arrivals) == (if Incomplete(Kept(lap)) then Done(init) else Done(init) + Run(lap).out)
  {
    hide Receive, Incomplete, Kept;
  }

  lemma StartsOver()
    ensures Incomplete(Kept([])) && Run([]) == INIT
  {
    var zero: U32 := 0;
    assert zero !in Kept([]);
  }

  /** A list numbered from zero, with IDs that wrap around. */
  ghost predicate Cyclic(issued: seq<Block>) {
    forall i :: 0 <= i < |issued| ==> issued[i].blockID == i % TWO_32
  }

  /** The 2^32 blocks of a list from a place on, or as many as there are. */
  ghost function Window(issued: seq<Block>, from: nat): seq<Block> {
    if from >= |issued| then [] else issued[from..Min(from + TWO_32, |issued|)]
  }

  /** At every moment, all that counted in the present lap and had been passed by was from the list's blocks for that
      lap. */
  ghost predicate OnCourse(arrivals: seq<Block>, issued: seq<Block>) {
    arrivals == [] ||
    var init := arrivals[..|arrivals| - 1];
    OnCourse(init, issued) && FromList(Lap(init) + [arrivals[|arrivals| - 1]], Window(issued, |Done(init)|))
  }

  lemma WindowPlaced(issued: seq<Block>, from: nat)
    requires Cyclic(issued) && from % TWO_32 == 0
    ensures Placed(Window(issued, from))
  {
    var w := Window(issued, from);
    forall i | 0 <= i < |w| ensures w[i].blockID == i {
      assert w[i] == issued[from + i];
      assert (from + i) % TWO_32 == i;
    }
  }

  lemma PrefixByParts(before: seq<Block>, lap: seq<Block>, issued: seq<Block>)
    requires |lap| <= TWO_32
    ensures before + lap <= issued <==> before <= issued && lap <= Window(issued, |before|)
  {
    var n, all := |before|, before + lap;
    if all <= issued {
      assert before == all[..n] == issued[..n];
      assert lap == all[n..] == issued[n..n + |lap|];
      if lap != [] {
        PrefixOfSlice(issued, n, Min(n + TWO_32, |issued|), |lap|);
      }
    }
    if before <= issued && lap <= Window(issued, n) {
      if lap == [] {
        assert all == before;
      } else {
        PrefixOfSlice(issued, n, Min(n + TWO_32, |issued|), |lap|);
        assert issued[..n + |lap|] == issued[..n] + issued[n..n + |lap|];
      }
    }
  }

  /** The present lap, with one more block, has not been replayed and puts out at most 2^32 blocks. */
  lemma LapFresh(lap: seq<Block>, b: Block)
    requires Incomplete(Kept(lap))
    ensures !Replayed(lap + [b]) && |Run(lap + [b]).out| <= TWO_32
  {
    hide Run, Kept, Replayed, Incomplete, Refines, Wrapped;
    RunStages(lap);
    ReplayedSnoc(lap, b);
    OutputExact(lap + [b]);
  }

  /** In every run whatsoever, and for every list of blocks numbered from zero, however long: the output is a prefix of
      that list if and only if at every moment all that counted and had been passed by was from the list's blocks for
      the present lap. */
  lemma {:induction false} LapsExact(arrivals: seq<Block>, issued: seq<Block>)
    requires Cyclic(issued)
    ensures Run(arrivals).out <= issued <==> OnCourse(arrivals, issued)
  {
    if arrivals == [] {
      StartsOver();
    } else {
      var init, b := arrivals[..|arrivals| - 1], arrivals[|arrivals| - 1];
      LapStep(arrivals);
      RunLaps(init);
      assert OnCourse(arrivals, issued) <==>
             OnCourse(init, issued) && FromList(Lap(init) + [b], Window(issued, |Done(init)|));
      hide Run, Receive, Kept, Lap, Done, Incomplete, FromList, Window, OnCourse, Cyclic;
      var lap, before := Lap(init) + [b], Done(init);
      LapsExact(init, issued);
      RunSnoc(Lap(init), b);
      ReceiveAhead(Run(init), Run(Lap(init)), before, b);
      ReceiveExtends(Run(init), b);
      LapFresh(Lap(init), b);
      WindowPlaced(issued, |before|);
      OneListExact(lap, Window(issued, |before|));
      PrefixByParts(before, Run(lap).out, issued);
    }
  }

  // ---------------------------------------------------------------- holes

  /** A block is held behind a missing one. */
  ghost predicate Hole(received: map<U32, Block>) {
    exists gap: U32, id: U32 :: gap < id && gap !in received && id in received
  }

  /** The only block held behind a missing one is the last ID. */
  ghost predicate LastAlone(received: map<U32, Block>) {
    exists m: U32 :: m < MAX_ID && BelowAndLast(received, m)
  }

  ghost predicate BelowAndLast(received: map<U32, Block>, m: U32) {
    forall i: U32 :: i in received <==> i < m || i == MAX_ID
  }

  /** A missing ID is waited for: the relay kills on every hole but one. */
  lemma KillsRefined(s: State, received: map<U32, Block>)
    requires Refines(s, received)
    ensures Kills(s) <==> Hole(received) && !LastAlone(received)
  {
    assert s.next > 0 ==> s.next - 1 in received;
    if Kills(s) {
      assert s.last - 1 in received && s.next < s.last - 1 < MAX_ID;
    } else {
      assert forall i: U32 :: s.next <= i < MAX_ID ==> i !in received;
      if Hole(received) {
        assert MAX_ID in received;
        assert BelowAndLast(received, s.next);
      }
    }
  }

  /** All IDs but the last have been received. */
  ghost predicate AllButLast(received: map<U32, Block>) {
    forall i: U32 :: i in received <==> i != MAX_ID
  }

  lemma AtLast(s: State, received: map<U32, Block>)
    requires Refines(s, received)
    ensures s.next == MAX_ID <==> AllButLast(received)
  {
  }

  /** In every run, when the timeout arm kills. */
  lemma {:induction false} KillsWhen(arrivals: seq<Block>)
    ensures var received := Kept(arrivals);
            Kills(Run(arrivals)) <==> if Incomplete(received) then Hole(received) && !LastAlone(received)
                                      else !AllButLast(Kept(Lap(arrivals)))
  {
    if Incomplete(Kept(arrivals)) {
      RunRefines(arrivals);
      hide Run, Kept;
      KillsRefined(Run(arrivals), Kept(arrivals));
    } else {
      LastAtEnd(arrivals);
      RunLaps(arrivals);
      RunRefines(Lap(arrivals));
      hide Run, Kept, Lap, Done;
      AtLast(Run(Lap(arrivals)), Kept(Lap(arrivals)));
    }
  }

  lemma LastAtEnd(arrivals: seq<Block>)
    requires !Incomplete(Kept(arrivals))
    ensures Run(arrivals).last == MAX_ID
  {
    RunCounts(arrivals);
    var beforeLast: U32 := MAX_ID - 1;
    assert beforeLast in Kept(arrivals);
  }

  lemma NoHole(received: map<U32, Block>)
    requires !Incomplete(received)
    ensures !Hole(received)
  {
  }

  lemma LastAloneHole(received: map<U32, Block>)
    requires LastAlone(received)
    ensures Hole(received)
  {
    var m: U32 :| m < MAX_ID && BelowAndLast(received, m);
    assert m !in received && MAX_ID in received;
  }

  /** In every run, the timeout arm kills exactly on a hole, if and only if: an ID is missing and the last ID is not
      the only block held back; or none is missing and all but the last have been received once more. */
  lemma {:induction false} HoleDetection(arrivals: seq<Block>)
    ensures var received := Kept(arrivals);
            (Kills(Run(arrivals)) <==> Hole(received)) <==>
              if Incomplete(received) then !LastAlone(received) else AllButLast(Kept(Lap(arrivals)))
  {
    KillsWhen(arrivals);
    hide Run, Kept, Lap, LastAlone, AllButLast;
    if LastAlone(Kept(arrivals)) {
      LastAloneHole(Kept(arrivals));
    }
    if !Incomplete(Kept(arrivals)) {
      NoHole(Kept(arrivals));
    }
  }

  lemma CacheHole(s: State, received: map<U32, Block>)
    requires Refines(s, received)
    ensures s.cache != map[] <==> Hole(received)
  {
    if k :| k in s.cache {
      assert s.next < k && s.next !in received && k in received;
    }
  }

  lemma NextAtMostLast(s: State, received: map<U32, Block>)
    requires Refines(s, received)
    ensures s.next <= s.last
  {
    assert s.next > 0 ==> s.next - 1 in received;
  }

  lemma NoHoleAllButLast(received: map<U32, Block>)
    requires AllButLast(received)
    ensures !Hole(received)
  {
  }

  /** The same in terms of the counters and the cache, in every run. next never passes last. The cache is non-empty
      exactly when a block is held behind a missing one among those that came since all IDs were last complete. Killing
      coincides with that if and only if, with an ID missing, the last ID is not the only block held back, and, with
      none missing, one is held back or all but the last have come again. */
  lemma {:induction false} HoleDetectionByCache(arrivals: seq<Block>)
    ensures var s, received, lap := Run(arrivals), Kept(arrivals), Kept(Lap(arrivals));
            && s.next <= s.last
            && (s.cache != map[] <==> Hole(lap))
            && ((Kills(s) <==> s.cache != map[]) <==>
                  if Incomplete(received) then !LastAlone(received) else Hole(lap) || AllButLast(lap))
  {
    RunLaps(arrivals);
    KillsWhen(arrivals);
    RunRefines(Lap(arrivals));
    if Incomplete(Kept(arrivals)) {
      RunRefines(arrivals);
    } else {
      LastAtEnd(arrivals);
    }
    hide Run, Kept, Lap, Done, Refines, LastAlone, AllButLast, Incomplete, Hole;
    CacheHole(Run(Lap(arrivals)), Kept(Lap(arrivals)));
    if Incomplete(Kept(arrivals)) {
      NextAtMostLast(Run(arrivals), Kept(arrivals));
      if LastAlone(Kept(arrivals)) {
        LastAloneHole(Kept(arrivals));
      }
    } else if AllButLast(Kept(Lap(arrivals))) {
      NoHoleAllButLast(Kept(Lap(arrivals)));
    }
  }

  /** In particular, when all IDs have been received and block 0 not once more, the relay always kills, and its cache is
      non-empty exactly when anything has arrived since. */
  lemma {:induction false} KillsWhenWrapped(arrivals: seq<Block>)
    requires !Incomplete(Kept(arrivals)) && !Replayed(arrivals)
    ensures Kills(Run(arrivals)) && (Run(arrivals).cache != map[] <==> Lap(arrivals) != [])
  {
    RunStages(arrivals);
    LastAtEnd(arrivals);
    RunLaps(arrivals);
    RunRefines(Lap(arrivals));
    KeptSpec(Lap(arrivals));
    KeptNothing();
    hide Run, Kept, Lap, Done, LastSeen;
    var lap := Lap(arrivals);
    if lap != [] {
      assert lap[0].blockID in Kept(lap);
    }
  }

  lemma KeptNothing()
    ensures Kept([]) == map[]
  {
  }

  function Numbered(i: U32): Block {
    Block(TYPE_DATA, 0, 0, i, 1, [0])
  }

  function InOrder(n: nat): seq<Block>
    requires n <= TWO_32
  {
    seq(n, i requires 0 <= i < n => Numbered(i))
  }

  lemma InOrderSnoc(n: nat)
    requires 0 < n <= TWO_32
    ensures InOrder(n) == InOrder(n - 1) + [Numbered(n - 1)]
  {
  }

  lemma NumberedID(i: U32)
    ensures Numbered(i).blockID == i
  {
  }

  lemma ReceiveNext(s: State, b: Block)
    requires s.cache == map[] && s.next == s.last == b.blockID < MAX_ID
    ensures Receive(s, b) == State(s.next + 1, s.next + 1, map[], s.out + [b])
  {
  }

  lemma {:induction false} RunInOrder(n: nat)
    requires n <= MAX_ID
    ensures Run(InOrder(n)) == State(n, n, map[], InOrder(n))
  {
    if n > 0 {
      hide InOrder, Run, Receive, Numbered;
      RunInOrder(n - 1);
      InOrderSnoc(n);
      RunSnoc(InOrder(n - 1), Numbered(n - 1));
      NumberedID(n - 1);
      ReceiveNext(Run(InOrder(n - 1)), Numbered(n - 1));
    }
  }

  /** The bound on IDs is tight: once all 2^32 IDs have gone through, a late copy of block 0 is emitted again. */
  lemma WrapReplays()
    ensures var arrivals := InOrder(TWO_32) + [Numbered(0)];
            && Consistent(arrivals)
            && Run(arrivals).out == arrivals
            && Run(InOrder(TWO_32)) == State(0, MAX_ID, map[], InOrder(TWO_32))
  {
    RunInOrder(MAX_ID);
    assert InOrder(TWO_32) == InOrder(MAX_ID) + [Numbered(MAX_ID)];
    RunSnoc(InOrder(MAX_ID), Numbered(MAX_ID));
    RunSnoc(InOrder(TWO_32), Numbered(0));
  }
}
