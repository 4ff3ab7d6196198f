/** How far one pass over the gap queue gets (agent/codex_desktop_state_queue.go). */
module ReplayChains {
  import opened Json
  import opened StateReplica

  /** Sets of one connection as the server streamed them, possibly with holes. */
  predicate StreamOrder(queue: seq<PatchSet>, epoch: nat) {
    && (forall i :: 0 <= i < |queue| && queue[i].epoch == epoch ==> queue[i].base < queue[i].revision)
    && (forall i, j :: 0 <= i < j < |queue| && queue[i].epoch == epoch && queue[j].epoch == epoch ==>
          queue[i].revision <= queue[j].base)
  }

  /** Queued sets of one connection that lead up from revision `from` to revision `to`, each starting where
      the one before ended; their place in the queue does not matter. */
  predicate Chain(from: nat, chain: seq<PatchSet>, to: nat, queue: seq<PatchSet>, epoch: nat)
    decreases |chain|
  {
    if chain == [] then from == to
    else
      && chain[0] in queue && chain[0].epoch == epoch && chain[0].base == from < chain[0].revision
      && Chain(chain[0].revision, chain[1..], to, queue, epoch)
  }

  /** The sets of the connection that lie beyond a revision, in queue order. */
  function Later(queue: seq<PatchSet>, epoch: nat, revision: nat): (r: seq<PatchSet>)
    ensures forall q :: q in r <==> q in queue && q.epoch == epoch && q.revision > revision
  {
    if queue == [] then []
    else
      (if queue[0].epoch == epoch && queue[0].revision > revision then [queue[0]] else [])
      + Later(queue[1..], epoch, revision)
  }

  /** Chains only climb. */
  lemma {:induction false} ChainClimbs(from: nat, chain: seq<PatchSet>, to: nat, queue: seq<PatchSet>, epoch: nat)
    requires StreamOrder(queue, epoch) && Chain(from, chain, to, queue, epoch)
    ensures from <= to
    decreases |chain|
  {
    if chain != [] {
      ChainClimbs(chain[0].revision, chain[1..], to, queue, epoch);
    }
  }

  /** A chain that starts at or beyond everything the first set leads to, or that the first set cannot
      start, runs in the rest of the queue. */
  lemma {:induction false} ChainInRest(from: nat, chain: seq<PatchSet>, to: nat, queue: seq<PatchSet>, epoch: nat)
    requires queue != [] && StreamOrder(queue, epoch) && Chain(from, chain, to, queue, epoch)
    requires queue[0].epoch == epoch ==> queue[0].base < from || (chain != [] && queue[0].base != from)
    ensures Chain(from, chain, to, queue[1..], epoch)
    decreases |chain|
  {
    if chain != [] {
      assert chain[0] != queue[0];
      assert chain[0] in queue[1..];
      var i :| 0 < i < |queue| && queue[i] == chain[0];
      ChainInRest(chain[0].revision, chain[1..], to, queue, epoch);
    }
  }

  lemma {:induction false} RestInOrder(queue: seq<PatchSet>, epoch: nat)
    requires queue != [] && StreamOrder(queue, epoch)
    ensures StreamOrder(queue[1..], epoch)
  {
  }

  lemma {:induction false} ChainInMore(from: nat, chain: seq<PatchSet>, to: nat, queue: seq<PatchSet>, epoch: nat)
    requires queue != [] && Chain(from, chain, to, queue[1..], epoch)
    ensures Chain(from, chain, to, queue, epoch)
    decreases |chain|
  {
    if chain != [] {
      ChainInMore(chain[0].revision, chain[1..], to, queue, epoch);
    }
  }

  /** No chain of queued sets leads beyond `end`. */
  ghost predicate Furthest(queue: seq<PatchSet>, epoch: nat, from: nat, end: nat) {
    forall c: seq<PatchSet>, to: nat :: Chain(from, c, to, queue, epoch) ==> to <= end
  }

  /** `chain` leads to the revision replay reached, no chain leads further, and what is kept is exactly
      the sets beyond it, none of which could be applied. */
  ghost predicate Maximal(queue: seq<PatchSet>, epoch: nat, from: nat, chain: seq<PatchSet>, r: Replayed) {
    && r.cur.epoch == epoch
    && Chain(from, chain, r.cur.revision, queue, epoch)
    && Furthest(queue, epoch, from, r.cur.revision)
    && r.remaining == Later(queue, epoch, r.cur.revision)
    && (forall q :: q in r.remaining ==> q.base != r.cur.revision)
  }

  /** Main theorem of the queue.  When the sets are in stream order and apply cleanly, replay reaches the
      end of the longest contiguous chain from the snapshot and keeps exactly the later sets. */
  lemma {:induction false} ReplayIsMaximal(view: Json -> View, fu: map<ThreadId, FollowUps>, cur: Snapshot,
                                          queue: seq<PatchSet>, clock: nat -> int, at: nat)
    returns (chain: seq<PatchSet>)
    requires StreamOrder(queue, cur.epoch)
    requires !Replay(view, fu, cur, queue, clock, at).failed
    ensures Maximal(queue, cur.epoch, cur.revision, chain, Replay(view, fu, cur, queue, clock, at))
    decreases |queue|
  {
    var r := Replay(view, fu, cur, queue, clock, at);
    chain := [];
    if queue == [] {
      forall c, to: nat | Chain(cur.revision, c, to, queue, cur.epoch)
        ensures to <= r.cur.revision
      {
        assert c == [];
      }
    } else {
      var q, rest := queue[0], queue[1..];
      RestInOrder(queue, cur.epoch);
      if Obsolete(cur, q) {
        chain := ReplayIsMaximal(view, fu, cur, rest, clock, at + 1);
        ObsoleteSet(queue, cur, chain, r);
      } else if q.base != cur.revision {
        SkippedSet(view, fu, cur, queue, clock, at);
      } else {
        var next := Advance(view, fu, cur, q, clock(at)).value;
        var tail := ReplayIsMaximal(view, fu, next, rest, clock, at + 1);
        chain := [q] + tail;
        AppliedSet(queue, cur, next, tail, r);
      }
    }
  }

  lemma {:induction false} ObsoleteSet(queue: seq<PatchSet>, cur: Snapshot, chain: seq<PatchSet>, r: Replayed)
    requires queue != [] && StreamOrder(queue, cur.epoch) && Obsolete(cur, queue[0])
    requires Maximal(queue[1..], cur.epoch, cur.revision, chain, r)
    ensures Maximal(queue, cur.epoch, cur.revision, chain, r)
  {
    var e := cur.epoch;
    ChainInMore(cur.revision, chain, r.cur.revision, queue, e);
    ChainClimbs(cur.revision, chain, r.cur.revision, queue, e);
    forall c, to: nat | Chain(cur.revision, c, to, queue, e)
      ensures to <= r.cur.revision
    {
      ChainInRest(cur.revision, c, to, queue, e);
    }
  }

  lemma {:induction false} AppliedSet(queue: seq<PatchSet>, cur: Snapshot, next: Snapshot, tail: seq<PatchSet>, r: Replayed)
    requires queue != [] && StreamOrder(queue, cur.epoch) && !Obsolete(cur, queue[0]) && queue[0].base == cur.revision
    requires next.epoch == cur.epoch && next.revision == queue[0].revision
    requires Maximal(queue[1..], cur.epoch, next.revision, tail, r)
    ensures Maximal(queue, cur.epoch, cur.revision, [queue[0]] + tail, r)
  {
    var e := cur.epoch;
    ChainInMore(next.revision, tail, r.cur.revision, queue, e);
    ChainClimbs(next.revision, tail, r.cur.revision, queue, e);
    assert ([queue[0]] + tail)[1..] == tail;
    forall c, to: nat | Chain(cur.revision, c, to, queue, e)
      ensures to <= r.cur.revision
    {
      if c != [] {
        var i :| 0 <= i < |queue| && queue[i] == c[0];
        assert i == 0;
        ChainInRest(next.revision, c[1..], to, queue, e);
      }
    }
  }

  /** The first set does not connect: nothing behind it connects either, and all of it is kept. */
  lemma {:induction false} SkippedSet(view: Json -> View, fu: map<ThreadId, FollowUps>, cur: Snapshot,
                                     queue: seq<PatchSet>, clock: nat -> int, at: nat)
    requires queue != [] && StreamOrder(queue, cur.epoch)
    requires !Obsolete(cur, queue[0]) && queue[0].base != cur.revision
    ensures Maximal(queue, cur.epoch, cur.revision, [], Replay(view, fu, cur, queue, clock, at))
  {
    forall q | q in queue && q.epoch == cur.epoch
      ensures q.base != cur.revision && q.revision > cur.revision
    {
      var i :| 0 <= i < |queue| && queue[i] == q;
    }
    NothingConnects(view, fu, cur, queue, clock, at);
    forall c, to: nat | Chain(cur.revision, c, to, queue, cur.epoch)
      ensures to <= cur.revision
    {
      assert c == [];
    }
  }

  lemma {:induction false} NothingConnects(view: Json -> View, fu: map<ThreadId, FollowUps>, cur: Snapshot,
                                          queue: seq<PatchSet>, clock: nat -> int, at: nat)
    requires forall q :: q in queue && q.epoch == cur.epoch ==> q.base != cur.revision && q.revision > cur.revision
    ensures var r := Replay(view, fu, cur, queue, clock, at);
            r.cur == cur && !r.failed && r.remaining == Later(queue, cur.epoch, cur.revision)
    decreases |queue|
  {
    if queue != [] {
      NothingConnects(view, fu, cur, queue[1..], clock, at + 1);
    }
  }

  // ---- Queues in any order ----

  /** The sets of `part` occur in the queue in this order. */
  predicate Occurs(part: seq<PatchSet>, queue: seq<PatchSet>)
    decreases |queue|
  {
    part == [] ||
    (queue != [] && ((part[0] == queue[0] && Occurs(part[1..], queue[1..])) || Occurs(part, queue[1..])))
  }

  /** The connection has at most one next revision after each: sets that start together end together. */
  predicate OneSuccessor(queue: seq<PatchSet>, epoch: nat) {
    forall p, q :: p in queue && q in queue && p.epoch == q.epoch == epoch && p.base == q.base < p.revision && q.base < q.revision
                   ==> p.revision == q.revision
  }

  /** Every revision that queued sets lead to is also led to by sets in queue order. */
  ghost predicate Threaded(queue: seq<PatchSet>, epoch: nat, from: nat) {
    forall c: seq<PatchSet>, to: nat :: Chain(from, c, to, queue, epoch) ==> Reachable(from, to, queue, epoch)
  }

  ghost predicate Reachable(from: nat, to: nat, queue: seq<PatchSet>, epoch: nat) {
    exists d: seq<PatchSet> :: Ordered(from, d, to, queue, epoch)
  }

  /** A chain whose sets occur in queue order. */
  predicate Ordered(from: nat, chain: seq<PatchSet>, to: nat, queue: seq<PatchSet>, epoch: nat) {
    Chain(from, chain, to, queue, epoch) && Occurs(chain, queue)
  }

  lemma {:induction false} OccursTail(part: seq<PatchSet>, queue: seq<PatchSet>)
    requires part != [] && Occurs(part, queue)
    ensures Occurs(part[1..], queue)
    decreases |queue|
  {
    if !(part[0] == queue[0] && Occurs(part[1..], queue[1..])) {
      OccursTail(part, queue[1..]);
    }
  }

  lemma {:induction false} OccursIn(part: seq<PatchSet>, queue: seq<PatchSet>, q: PatchSet)
    requires Occurs(part, queue) && q in part
    ensures q in queue
    decreases |queue|
  {
    if part[0] == queue[0] && Occurs(part[1..], queue[1..]) {
      if q != part[0] {
        assert q in part[1..];
        OccursIn(part[1..], queue[1..], q);
      }
    } else {
      OccursIn(part, queue[1..], q);
    }
  }

  /** A chain of sets that occur elsewhere in order is a chain there. */
  lemma {:induction false} ChainOccurs(from: nat, chain: seq<PatchSet>, to: nat, queue: seq<PatchSet>, other: seq<PatchSet>, epoch: nat)
    requires Chain(from, chain, to, queue, epoch) && Occurs(chain, other)
    ensures Chain(from, chain, to, other, epoch)
    decreases |chain|
  {
    if chain != [] {
      OccursIn(chain, other, chain[0]);
      OccursTail(chain, other);
      ChainOccurs(chain[0].revision, chain[1..], to, queue, other, epoch);
    }
  }

  lemma {:induction false} SuccessorInRest(queue: seq<PatchSet>, epoch: nat)
    requires queue != [] && OneSuccessor(queue, epoch)
    ensures OneSuccessor(queue[1..], epoch)
  {
  }

  lemma {:induction false} ReplayClimbs(view: Json -> View, fu: map<ThreadId, FollowUps>, cur: Snapshot,
                                       queue: seq<PatchSet>, clock: nat -> int, at: nat)
    ensures var r := Replay(view, fu, cur, queue, clock, at); r.cur.epoch == cur.epoch && r.cur.revision >= cur.revision
    decreases |queue|
  {
    if queue != [] {
      var q, rest := queue[0], queue[1..];
      if Obsolete(cur, q) || q.base != cur.revision {
        ReplayClimbs(view, fu, cur, rest, clock, at + 1);
      } else if Advance(view, fu, cur, q, clock(at)).Some? {
        ReplayClimbs(view, fu, Advance(view, fu, cur, q, clock(at)).value, rest, clock, at + 1);
      }
    }
  }

  /** Replay reaches at least what any chain in queue order leads to. */
  lemma {:induction false} ReplayCoversOrdered(view: Json -> View, fu: map<ThreadId, FollowUps>, cur: Snapshot,
                                              queue: seq<PatchSet>, clock: nat -> int, at: nat, chain: seq<PatchSet>, to: nat)
    requires OneSuccessor(queue, cur.epoch) && !Replay(view, fu, cur, queue, clock, at).failed
    requires Ordered(cur.revision, chain, to, queue, cur.epoch)
    ensures to <= Replay(view, fu, cur, queue, clock, at).cur.revision
    decreases |queue|
  {
    if chain == [] {
      ReplayClimbs(view, fu, cur, queue, clock, at);
    } else {
      var q, rest, e := queue[0], queue[1..], cur.epoch;
      SuccessorInRest(queue, e);
      if Obsolete(cur, q) || q.base != cur.revision {
        assert chain[0] != q && Occurs(chain, rest);
        ChainOccurs(cur.revision, chain, to, queue, rest, e);
        ReplayCoversOrdered(view, fu, cur, rest, clock, at + 1, chain, to);
      } else {
        var next := Advance(view, fu, cur, q, clock(at)).value;
        assert chain[0].revision == q.revision == next.revision;
        if !(chain[0] == q && Occurs(chain[1..], rest)) {
          OccursTail(chain, rest);
        }
        ChainOccurs(next.revision, chain[1..], to, queue, rest, e);
        ReplayCoversOrdered(view, fu, next, rest, clock, at + 1, chain[1..], to);
      }
    }
  }

  /** What replay applies is a chain in queue order. */
  lemma {:induction false} ReplayIsOrdered(view: Json -> View, fu: map<ThreadId, FollowUps>, cur: Snapshot,
                                          queue: seq<PatchSet>, clock: nat -> int, at: nat)
    returns (chain: seq<PatchSet>)
    ensures Ordered(cur.revision, chain, Replay(view, fu, cur, queue, clock, at).cur.revision, queue, cur.epoch)
    decreases |queue|
  {
    chain := [];
    if queue != [] {
      var q, rest, r := queue[0], queue[1..], Replay(view, fu, cur, queue, clock, at);
      if Obsolete(cur, q) || q.base != cur.revision {
        chain := ReplayIsOrdered(view, fu, cur, rest, clock, at + 1);
        ChainInMore(cur.revision, chain, r.cur.revision, queue, cur.epoch);
      } else if Advance(view, fu, cur, q, clock(at)).Some? {
        var next := Advance(view, fu, cur, q, clock(at)).value;
        var tail := ReplayIsOrdered(view, fu, next, rest, clock, at + 1);
        ChainInMore(next.revision, tail, r.cur.revision, queue, cur.epoch);
        chain := [q] + tail;
        assert chain[1..] == tail;
      }
    }
  }

  /** With one successor each, a chain that leads no further than an ordered one passes through it. */
  lemma {:induction false} ChainFollows(from: nat, chain: seq<PatchSet>, to: nat, long: seq<PatchSet>, end: nat, queue: seq<PatchSet>, epoch: nat)
    returns (n: nat)
    requires OneSuccessor(queue, epoch) && to <= end
    requires Chain(from, chain, to, queue, epoch) && Chain(from, long, end, queue, epoch)
    ensures n <= |long| && Chain(from, long[..n], to, queue, epoch)
    decreases |chain|
  {
    n := 0;
    if chain != [] {
      ChainRises(from, chain, to, queue, epoch);
      assert long != [];
      assert chain[0].revision == long[0].revision;
      var m := ChainFollows(chain[0].revision, chain[1..], to, long[1..], end, queue, epoch);
      n := m + 1;
      assert long[..n][1..] == long[1..][..m];
    }
  }

  lemma {:induction false} ChainRises(from: nat, chain: seq<PatchSet>, to: nat, queue: seq<PatchSet>, epoch: nat)
    requires Chain(from, chain, to, queue, epoch)
    ensures from <= to && (chain != [] ==> from < to)
    decreases |chain|
  {
    if chain != [] {
      ChainRises(chain[0].revision, chain[1..], to, queue, epoch);
    }
  }

  lemma {:induction false} OccursPrefix(part: seq<PatchSet>, n: nat, queue: seq<PatchSet>)
    requires Occurs(part, queue) && n <= |part|
    ensures Occurs(part[..n], queue)
    decreases |queue|
  {
    if n > 0 {
      if part[0] == queue[0] && Occurs(part[1..], queue[1..]) {
        OccursPrefix(part[1..], n - 1, queue[1..]);
        assert part[..n][1..] == part[1..][..n - 1];
      } else {
        OccursPrefix(part, n, queue[1..]);
      }
    }
  }

  /** Exactly when the single pass gets as far as the queue allows.  For sets that apply cleanly and give each
      revision one successor, however they are ordered: replay reaches the end of the longest chain if and
      only if every revision that queued sets lead to is led to by sets that stand in queue order. */
  lemma {:induction false} ReplayIsLongestExactly(view: Json -> View, fu: map<ThreadId, FollowUps>, cur: Snapshot,
                                                 queue: seq<PatchSet>, clock: nat -> int, at: nat)
    requires OneSuccessor(queue, cur.epoch) && !Replay(view, fu, cur, queue, clock, at).failed
    ensures Furthest(queue, cur.epoch, cur.revision, Replay(view, fu, cur, queue, clock, at).cur.revision)
            <==> Threaded(queue, cur.epoch, cur.revision)
  {
    var end, e, from := Replay(view, fu, cur, queue, clock, at).cur.revision, cur.epoch, cur.revision;
    var long := ReplayIsOrdered(view, fu, cur, queue, clock, at);
    if Furthest(queue, e, from, end) {
      forall c, to: nat | Chain(from, c, to, queue, e) ensures Reachable(from, to, queue, e) {
        var n := ChainFollows(from, c, to, long, end, queue, e);
        OccursPrefix(long, n, queue);
        assert Ordered(from, long[..n], to, queue, e);
      }
      assert Threaded(queue, e, from);
    }
    if Threaded(queue, e, from) {
      forall c, to: nat | Chain(from, c, to, queue, e) ensures to <= end {
        assert Reachable(from, to, queue, e);
        var d :| Ordered(from, d, to, queue, e);
        ReplayCoversOrdered(view, fu, cur, queue, clock, at, d, to);
      }
    }
  }

  /** An instance that is not threaded: with two sets swapped the single pass stops early and keeps a set that
      could now be applied. */
  lemma OutOfOrderStopsEarly(view: Json -> View, cur: Snapshot, clock: nat -> int)
    requires cur.raw.Obj? && cur.threadId != NO_THREAD && RawId(cur.raw) == cur.threadId && cur.revision == 0
    ensures var first, second := PatchSet(cur.epoch, 0, 1, []), PatchSet(cur.epoch, 1, 2, []);
            var r := Replay(view, map[], cur, [second, first], clock, 1);
            r.cur.revision == 1 && r.remaining == [second]
  {
    var first, second := PatchSet(cur.epoch, 0, 1, []), PatchSet(cur.epoch, 1, 2, []);
    assert [second, first][1..] == [first] && [first][1..] == [];
    var next := Advance(view, map[], cur, first, clock(2)).value;
    assert Replay(view, map[], next, [], clock, 3) == Replayed(next, [], false);
    assert Replay(view, map[], cur, [first], clock, 2) == Replayed(next, [], false);
  }
}
