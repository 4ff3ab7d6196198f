/** What becomes of a patch set that arrives before its base: it waits until its thread catches up
    (agent/codex_desktop_state_queue.go). */
module GapQueue {
  import opened Json
  import opened JsonPatch
  import opened Text
  import opened StateReplica
  import opened ReplicaSafety
  import opened StoreEffects

  // ---- Replay loses nothing that is still ahead ----

  /** After a replay that did not fail, each set of the connection still waits or lies behind. */
  lemma {:induction false} ReplayKeepsAhead(view: Json -> View, fu: map<ThreadId, FollowUps>, cur: Snapshot,
                                           queue: seq<PatchSet>, clock: nat -> int, at: nat, q: PatchSet)
    requires RawId(cur.raw) == cur.threadId && q in queue && q.epoch == cur.epoch
    ensures var r := Replay(view, fu, cur, queue, clock, at);
            r.failed || q in r.remaining || q.revision <= r.cur.revision
    decreases |queue|
  {
    var first, rest := queue[0], queue[1..];
    ReplayFacts(view, fu, cur, queue, clock, at);
    if Obsolete(cur, first) {
      if q in rest {
        ReplayKeepsAhead(view, fu, cur, rest, clock, at + 1, q);
      }
    } else if first.base != cur.revision {
      if q in rest {
        ReplayKeepsAhead(view, fu, cur, rest, clock, at + 1, q);
      }
    } else {
      match Advance(view, fu, cur, first, clock(at))
      case None =>
      case Some(next) =>
        ReplayFacts(view, fu, next, rest, clock, at + 1);
        if q in rest {
          ReplayKeepsAhead(view, fu, next, rest, clock, at + 1, q);
        }
    }
  }

  /** A set that starts where the thread is gets applied, unless one before it in the queue starts there
      too. */
  lemma {:induction false} ReplayTakes(view: Json -> View, fu: map<ThreadId, FollowUps>, cur: Snapshot,
                                      queue: seq<PatchSet>, clock: nat -> int, at: nat, i: nat)
    requires RawId(cur.raw) == cur.threadId && i < |queue| && queue[i].epoch == cur.epoch
    requires queue[i].base == cur.revision < queue[i].revision
    requires forall j :: 0 <= j < i ==> queue[j].epoch != cur.epoch || queue[j].base != cur.revision
    ensures var r := Replay(view, fu, cur, queue, clock, at); r.failed || queue[i].revision <= r.cur.revision
    decreases |queue|
  {
    var first, rest := queue[0], queue[1..];
    if i > 0 {
      assert rest[i - 1] == queue[i];
      ReplayTakes(view, fu, cur, rest, clock, at + 1, i - 1);
    } else {
      match Advance(view, fu, cur, first, clock(at))
      case None =>
      case Some(next) => ReplayFacts(view, fu, next, rest, clock, at + 1);
    }
  }

  /** The set cannot be applied to the document, or takes the thread's name away. */
  predicate Breaks(cur: Snapshot, q: PatchSet) {
    match ApplyAll(cur.raw, q.patches)
    case None => true
    case Some(doc) => !Carries(doc, cur.threadId)
  }

  /** The failing set stands at place `i` of the queue. */
  predicate FailsAt(queue: seq<PatchSet>, r: Replayed, i: int) {
    && 0 <= i < |queue| && r.remaining != []
    && var q := queue[i];
       && q == r.remaining[|r.remaining| - 1] && q.epoch == r.cur.epoch && q.base == r.cur.revision < q.revision && Breaks(r.cur, q)
       && (forall p :: p in r.remaining[..|r.remaining| - 1] ==> p in queue[..i])
  }

  /** A replay fails only by a set that is next in line and breaks; that set is kept, behind those that were
      skipped before it, and what stood behind it is forgotten. */
  lemma {:induction false} ReplayFailsAt(view: Json -> View, fu: map<ThreadId, FollowUps>, cur: Snapshot,
                                             queue: seq<PatchSet>, clock: nat -> int, at: nat)
    requires Carries(cur.raw, cur.threadId)
    ensures var r := Replay(view, fu, cur, queue, clock, at);
            r.failed ==> exists i :: FailsAt(queue, r, i)
    decreases |queue|
  {
    if queue != [] {
      var q, rest := queue[0], queue[1..];
      var next := Advance(view, fu, cur, q, clock(at));
      if Obsolete(cur, q) {
        ReplayFailsAt(view, fu, cur, rest, clock, at + 1);
        FailsFurtherOn(queue, Replay(view, fu, cur, rest, clock, at + 1), []);
      } else if q.base != cur.revision {
        ReplayFailsAt(view, fu, cur, rest, clock, at + 1);
        FailsFurtherOn(queue, Replay(view, fu, cur, rest, clock, at + 1), [q]);
      } else if next.Some? {
        ReplayFailsAt(view, fu, next.value, rest, clock, at + 1);
        FailsFurtherOn(queue, Replay(view, fu, next.value, rest, clock, at + 1), []);
      } else {
        assert FailsAt(queue, Replayed(cur, [q], true), 0);
      }
    }
  }

  lemma {:induction false} FailsFurtherOn(queue: seq<PatchSet>, r: Replayed, kept: seq<PatchSet>)
    requires queue != [] && kept in {[], [queue[0]]}
    ensures (exists i :: FailsAt(queue[1..], r, i)) ==> exists i :: FailsAt(queue, r.(remaining := kept + r.remaining), i)
    ensures kept == [] ==> r.(remaining := kept + r.remaining) == r
  {
    assert [] + r.remaining == r.remaining;
    if i :| FailsAt(queue[1..], r, i) {
      var more := r.(remaining := kept + r.remaining);
      var n := |more.remaining| - 1;
      assert more.remaining[..n] == kept + r.remaining[..|r.remaining| - 1];
      assert more.remaining[n] == r.remaining[|r.remaining| - 1];
      forall p | p in more.remaining[..n] ensures p in queue[..i + 1] {
        if p in kept {
          assert queue[..i + 1][0] == p;
        } else {
          assert p in r.remaining[..|r.remaining| - 1] && p in queue[1..][..i];
          var k :| 0 <= k < i && queue[1..][..i][k] == p;
          assert queue[..i + 1][k + 1] == p;
        }
      }
      assert FailsAt(queue, more, i + 1);
    }
  }

  // ---- How long a set waits ----

  predicate Waits(s: State, t: ThreadId, q: PatchSet) {
    t in s.queued && q in s.queued[t]
  }

  /** The cached thread is on the set's connection, at its revision or later. */
  predicate Reached(s: State, t: ThreadId, q: PatchSet) {
    t in s.threads && s.threads[t].epoch == q.epoch && s.threads[t].revision >= q.revision
  }

  /** The broadcast is a snapshot that the store accepts for the thread. */
  predicate Resets(s: State, e: Event, t: ThreadId) {
    e.SnapshotEvent? && IsNamed(e.thread, t) && Carries(e.raw, t) && Newer(s, t, e.epoch, e.revision)
  }

  /** The set is lost: its thread is evicted, taken over by another connection, or fails in replay. */
  predicate Loses(view: Json -> View, s: State, m: Move, t: ThreadId, q: PatchSet) {
    || t in Evicted(m)
    || (Resets(s, m.event, t) && m.event.epoch != q.epoch)
    || (Resets(s, m.event, t) && Replaying(view, s, m.event).failed)
  }

  lemma {:induction false} StepKeepsWaiting(view: Json -> View, s: State, m: Move, t: ThreadId, q: PatchSet)
    requires Waits(s, t, q) && t != NO_THREAD
    ensures var n := Next(view, s, m.event, m.gone); Waits(n, t, q) || Reached(n, t, q) || Loses(view, s, m, t, q)
  {
    var e := m.event;
    match e
    case SnapshotEvent(_, _, _, _, _) =>
      AcceptedExactly(s, e, ThreadId(Trim(e.thread)));
      if AcceptsSnapshot(s, e) && Id(e.thread) == t && e.epoch == q.epoch {
        ReplayingFacts(view, s, e);
        var mid := Received(view, s, e);
        ReplayKeepsAhead(view, mid.followUps, mid.threads[t], Queue(mid, t), e.clock, 1, q);
      }
    case PatchEvent(_, _, _) =>
    case FollowUpsEvent(_, _, _, _) => FollowUpsOnly(s, e, m.gone);
  }

  /** With broadcast `k` the set is reached or lost. */
  predicate Goes(view: Json -> View, states: seq<State>, moves: seq<Move>, k: nat, t: ThreadId, q: PatchSet)
    requires k < |moves| == |states| - 1
  {
    Reached(states[k + 1], t, q) || Loses(view, states[k], moves[k], t, q)
  }

  /** Main theorem: in every run a set that waits goes on waiting until the cached thread has reached its
      revision, or one of three things happens: its thread is evicted, another connection replaces it, or a
      replay of its queue fails. */
  lemma {:induction false} WaitsUntilReached(view: Json -> View, states: seq<State>, moves: seq<Move>, a: nat, n: nat, t: ThreadId, q: PatchSet)
    requires Follows(view, states, moves) && a <= n <= |moves| && Waits(states[a], t, q) && t != NO_THREAD
    ensures Waits(states[n], t, q) || exists k :: a <= k < n && Goes(view, states, moves, k, t, q)
    decreases n
  {
    if a < n {
      var k := n - 1;
      WaitsUntilReached(view, states, moves, a, k, t, q);
      assert Links(view, states, moves, k);
      if Waits(states[k], t, q) {
        StepKeepsWaiting(view, states[k], moves[k], t, q);
        assert Waits(states[n], t, q) || Goes(view, states, moves, k, t, q);
      }
    }
  }

  /** No waiting set before this one starts at the same revision. */
  ghost predicate FirstAtItsBase(s: State, t: ThreadId, q: PatchSet) {
    t in s.queued && exists i :: FirstAt(s.queued[t], q, i)
  }

  predicate FirstAt(queue: seq<PatchSet>, q: PatchSet, i: nat) {
    && i < |queue| && queue[i] == q
    && forall j :: 0 <= j < i ==> queue[j].epoch != q.epoch || queue[j].base != q.base
  }

  /** An accepted snapshot at the base of a waiting set brings the thread to the set's revision or beyond. */
  lemma {:induction false} SnapshotReaches(view: Json -> View, s: State, m: Move, t: ThreadId, q: PatchSet)
    requires Allowed(view, s, m.event, m.gone) && Resets(s, m.event, t) && !Replaying(view, s, m.event).failed
    requires m.event.epoch == q.epoch && m.event.revision == q.base < q.revision && FirstAtItsBase(s, t, q)
    ensures Reached(Next(view, s, m.event, m.gone), t, q)
  {
    AcceptedExactly(s, m.event, t);
    SparesCurrent(view, s, m.event, m.gone);
    AcceptedOutcome(view, s, m.event, m.gone);
    var i: nat :| FirstAt(s.queued[t], q, i);
    ReplayingTakes(view, s, m.event, i);
  }

  lemma {:induction false} ReplayingTakes(view: Json -> View, s: State, e: Event, i: nat)
    requires e.SnapshotEvent? && AcceptsSnapshot(s, e) && !Replaying(view, s, e).failed
    requires var queue := Queue(s, Id(e.thread));
             i < |queue| && queue[i].epoch == e.epoch && e.revision == queue[i].base < queue[i].revision && FirstAt(queue, queue[i], i)
    ensures Replaying(view, s, e).cur.revision >= Queue(s, Id(e.thread))[i].revision
  {
    var mid, t := Received(view, s, e), Id(e.thread);
    ReplayTakes(view, mid.followUps, mid.threads[t], Queue(mid, t), e.clock, 1, i);
  }

  /** Main theorem for early sets: in every run, a set that arrives before its base and finds room is not lost
      by anything but eviction, another connection or a failing replay; the snapshot at its base brings the
      thread to its revision or beyond. */
  lemma {:induction false} EarlySetIsReached(view: Json -> View, states: seq<State>, moves: seq<Move>, a: nat, b: nat, t: ThreadId)
    requires Run(view, states, moves) && a < b < |moves| && moves[a].event.PatchEvent? && IsNamed(moves[a].event.thread, t)
    requires var q := moves[a].event.patchSet;
             && Newer(states[a], t, q.epoch, q.revision) && !Continues(states[a], t, q)
             && Fits(if t in states[a].queued then states[a].queued[t] else [], q)
             && (forall k :: a < k <= b ==> !Loses(view, states[k], moves[k], t, q))
             && Resets(states[b], moves[b].event, t)
             && moves[b].event.epoch == q.epoch && moves[b].event.revision == q.base < q.revision
             && (Waits(states[b], t, q) ==> FirstAtItsBase(states[b], t, q))
    ensures exists k :: a < k <= b + 1 && Reached(states[k], t, moves[a].event.patchSet)
  {
    var q := moves[a].event.patchSet;
    assert Links(view, states, moves, a);
    EarlySetWaits(view, states[a], moves[a], t);
    WaitsUntilReached(view, states, moves, a + 1, b, t, q);
    if Waits(states[b], t, q) {
      assert Links(view, states, moves, b) && Permits(view, states, moves, b);
      SnapshotReaches(view, states[b], moves[b], t, q);
      assert Reached(states[b + 1], t, q);
    } else {
      var k :| a + 1 <= k < b && Goes(view, states, moves, k, t, q);
      assert Reached(states[k + 1], t, q);
    }
  }

  lemma {:induction false} EarlySetWaits(view: Json -> View, s: State, m: Move, t: ThreadId)
    requires m.event.PatchEvent? && IsNamed(m.event.thread, t)
    requires var q := m.event.patchSet; Newer(s, t, q.epoch, q.revision) && !Continues(s, t, q)
    requires Fits(if t in s.queued then s.queued[t] else [], m.event.patchSet)
    ensures Waits(Next(view, s, m.event, m.gone), t, m.event.patchSet)
  {
    GapIsQueued(view, s, m.event, m.gone, t);
  }
}
