/** The Desktop state store in its own, imperative form.  Each public method is one critical section and
    is proved against the transition system of StateReplica, so ReplicaSafety speaks about every
    interleaving of calls. */
module StateStore {
  import opened Json
  import opened JsonPatch
  import opened StateReplica
  import opened ReplicaSafety

  /** Replay compacts the queue in place: kept sets move to the front of the array that is being read.
      The write position never passes the read position, so no unread set is overwritten and the result
      is that of replaying the original contents. */
  method ReplayInPlace(view: Json -> View, fu: map<ThreadId, FollowUps>, first: Snapshot,
                       queue: array<PatchSet>, clock: nat -> int)
    returns (cur: Snapshot, kept: nat, failed: bool)
    modifies queue
    ensures kept <= queue.Length
    ensures Replayed(cur, queue[..kept], failed) == Replay(view, fu, first, old(queue[..]), clock, 1)
  {
    cur, kept := first, 0;
    ghost var all := queue[..];
    assert all[0..] == all;
    var i := 0;
    while i < queue.Length
      invariant kept <= i <= queue.Length == |all|
      invariant forall k :: i <= k < |all| ==> queue[k] == all[k]
      invariant Rest(view, fu, first, all, clock, i, cur, queue[..kept])
    {
      var q := queue[i];
      ghost var before := queue[..kept];
      RestStep(view, fu, first, all, clock, i, cur, before);
      i := i + 1;
      if Obsolete(cur, q) {
      } else if q.base != cur.revision {
        Append(queue, kept, i, q);
        kept := kept + 1;
      } else {
        var next := Advance(view, fu, cur, q, clock(i));
        if next.None? {
          Append(queue, kept, i, q);
          return cur, kept + 1, true;
        }
        cur := next.value;
      }
    }
    failed := false;
    assert queue[..kept] + [] == queue[..kept];
  }

  /** Appends to the kept prefix; everything from `read` on is left alone. */
  method Append(queue: array<PatchSet>, kept: nat, read: nat, q: PatchSet)
    requires kept < read <= queue.Length
    modifies queue
    ensures queue[..kept + 1] == old(queue[..kept]) + [q]
    ensures forall k :: read <= k < queue.Length ==> queue[k] == old(queue[k])
  {
    queue[kept] := q;
  }

  /** Half-way through a pass: what has been kept so far, then the replay of the unread sets. */
  ghost predicate Rest(view: Json -> View, fu: map<ThreadId, FollowUps>, first: Snapshot, all: seq<PatchSet>,
                       clock: nat -> int, i: nat, cur: Snapshot, kept: seq<PatchSet>)
    requires i <= |all|
  {
    var r := Replay(view, fu, cur, all[i..], clock, i + 1);
    Replayed(r.cur, kept + r.remaining, r.failed) == Replay(view, fu, first, all, clock, 1)
  }

  lemma {:induction false} RestStep(view: Json -> View, fu: map<ThreadId, FollowUps>, first: Snapshot, all: seq<PatchSet>,
                                   clock: nat -> int, i: nat, cur: Snapshot, kept: seq<PatchSet>)
    requires i < |all| && Rest(view, fu, first, all, clock, i, cur, kept)
    ensures var q := all[i];
            if Obsolete(cur, q) then Rest(view, fu, first, all, clock, i + 1, cur, kept)
            else if q.base != cur.revision then Rest(view, fu, first, all, clock, i + 1, cur, kept + [q])
            else
              var next := Advance(view, fu, cur, q, clock(i + 1));
              if next.Some? then Rest(view, fu, first, all, clock, i + 1, next.value, kept)
              else Replayed(cur, kept + [q], true) == Replay(view, fu, first, all, clock, 1)
  {
    var r := Replay(view, fu, cur, all[i + 1..], clock, i + 2);
    assert all[i..][0] == all[i] && all[i..][1..] == all[i + 1..];
    assert kept + ([all[i]] + r.remaining) == (kept + [all[i]]) + r.remaining;
  }

  /** The patch set is news of its thread that does not continue what is cached. */
  ghost predicate Gaps(s: State, e: Event)
    requires e.PatchEvent?
  {
    var t, q := Id(e.thread), e.patchSet;
    t != NO_THREAD && !Stale(s, t, q.epoch, q.revision) && !Contiguous(s, t, q)
  }

  class Store {
    const view: Json -> View
    var threads: map<ThreadId, Snapshot>
    var queued: map<ThreadId, seq<PatchSet>>
    var followUps: map<ThreadId, FollowUps>
    var needs: map<ThreadId, nat>

    ghost function Model(): State
      reads this
    {
      State(threads, queued, followUps, needs)
    }

    constructor (view: Json -> View)
      ensures Model() == Start() && this.view == view
    {
      this.view := view;
      threads, queued, followUps, needs := map[], map[], map[], map[];
    }

    /** A full snapshot: replaces the thread, replays what was waiting for it and evicts. */
    method ApplySnapshot(e: Event) returns (applied: bool, failed: bool, ghost gone: seq<ThreadId>)
      requires e.SnapshotEvent?
      modifies this
      ensures Allowed(view, old(Model()), e, gone) && Model() == Next(view, old(Model()), e, gone)
      ensures applied == Applied(view, old(Model()), e)
      ensures failed == (applied && Replaying(view, old(Model()), e).failed)
    {
      applied, failed, gone := false, false, [];
      var t := Id(e.thread);
      if t == NO_THREAD || !e.raw.Obj? || RawId(e.raw) != t {
        return;
      }
      if t in threads && e.epoch < threads[t].epoch {
        return;
      }
      if t in threads && e.epoch == threads[t].epoch && e.revision <= threads[t].revision {
        return;
      }
      applied := true;
      failed, gone := Install(t, e);
      if !failed {
        EvictionSpares(Installed(view, old(Model()), e).threads, t, gone);
      }
      if (if t in needs then needs[t] else 0) <= threads[t].revision {
        needs := needs - {t};
      }
    }

    method Install(t: ThreadId, e: Event) returns (failed: bool, ghost gone: seq<ThreadId>)
      requires e.SnapshotEvent? && t == Id(e.thread)
      modifies this
      ensures var s := old(Model());
              && failed == Replaying(view, s, e).failed
              && (if failed then gone == [] else Evictions(Installed(view, s, e).threads, t, gone))
              && Model() == Drop(Installed(view, s, e), Names(gone))
    {
      var snap := Build(view, t, e.epoch, e.revision, e.raw, e.clock(0));
      followUps := Keep(followUps, snap);
      threads := threads[t := Attach(followUps, snap)];
      assert Model() == Received(view, old(Model()), e);
      failed, gone := ReplayQueued(t, e.clock);
    }

    /** Replays the gap queue of a thread that has just been stored. */
    method ReplayQueued(t: ThreadId, clock: nat -> int) returns (failed: bool, ghost gone: seq<ThreadId>)
      requires t in threads
      modifies this
      ensures var s := old(Model());
              var r := ReplayQueue(view, s, t, clock);
              && failed == r.failed
              && (if failed then gone == [] else Evictions(StoreReplay(s, t, r).threads, t, gone))
              && Model() == Drop(StoreReplay(s, t, r), Names(gone))
    {
      gone := [];
      failed := ReplayStored(t, clock);
      if failed {
        DropNothing(Model());
      } else {
        gone := EvictIdle(t);
      }
    }

    method ReplayStored(t: ThreadId, clock: nat -> int) returns (failed: bool)
      requires t in threads
      modifies this
      ensures var r := ReplayQueue(view, old(Model()), t, clock);
              failed == r.failed && Model() == StoreReplay(old(Model()), t, r)
    {
      var pending := if t in queued then queued[t] else [];
      var queue := new PatchSet[|pending|](i requires 0 <= i < |pending| => pending[i]);
      assert queue[..] == pending;
      var cur, kept;
      cur, kept, failed := ReplayInPlace(view, followUps, threads[t], queue, clock);
      threads := threads[t := cur];
      queued := StoreQueue(queued, t, queue[..kept]);
    }

    /** Patches that continue the cached revision are applied at once; others wait in the gap queue.
        `request` asks for a snapshot, once per outstanding request. */
    method ApplyPatchSet(e: Event) returns (applied: bool, request: bool, ghost gone: seq<ThreadId>)
      requires e.PatchEvent?
      modifies this
      ensures Allowed(view, old(Model()), e, gone) && Model() == Next(view, old(Model()), e, gone)
      ensures applied == Applied(view, old(Model()), e)
      ensures request <==> Gaps(old(Model()), e) && Id(e.thread) !in old(needs)
    {
      applied, request, gone := false, false, [];
      var t, q := Id(e.thread), e.patchSet;
      if t == NO_THREAD {
        return;
      }
      if t in threads && q.epoch < threads[t].epoch {
        return;
      }
      if t in threads && q.epoch == threads[t].epoch && q.revision <= threads[t].revision {
        return;
      }
      assert !Stale(old(Model()), t, q.epoch, q.revision);
      if t !in threads || threads[t].epoch != q.epoch || q.base != threads[t].revision {
        assert Gaps(old(Model()), e);
        request := QueuePatchSet(t, q);
        return;
      }
      applied, gone := PatchNow(t, e);
    }

    /** The patch set continues the cached revision. */
    method PatchNow(t: ThreadId, e: Event) returns (applied: bool, ghost gone: seq<ThreadId>)
      requires e.PatchEvent? && t == Id(e.thread) && t != NO_THREAD
      requires Contiguous(Model(), t, e.patchSet) && !Stale(Model(), t, e.patchSet.epoch, e.patchSet.revision)
      modifies this
      ensures var p := Patched(view, old(Model()), e);
              && applied == p.Some?
              && if applied then
                   var n := Updated(old(Model()), p.value);
                   Evictions(n.threads, t, gone) && Model() == Drop(n, Names(gone))
                 else gone == [] && Model() == old(Model())
    {
      var q := e.patchSet;
      var next := ApplyAll(threads[t].raw, q.patches);
      if next.None? || RawId(next.value) != t {
        return false, [];
      }
      applied := true;
      gone := Update(t, Build(view, t, q.epoch, q.revision, next.value, e.clock(0)));
    }

    /** Stores a thread that went one step further. */
    method Update(t: ThreadId, snap: Snapshot) returns (ghost gone: seq<ThreadId>)
      requires snap.threadId == t
      modifies this
      ensures var n := Updated(old(Model()), snap);
              Evictions(n.threads, t, gone) && Model() == Drop(n, Names(gone))
    {
      followUps := Keep(followUps, snap);
      threads := threads[t := Attach(followUps, snap)];
      gone := EvictIdle(t);
    }

    /** The gap queue takes a set while it has room; the snapshot target is raised either way. */
    method QueuePatchSet(t: ThreadId, q: PatchSet) returns (request: bool)
      modifies this
      ensures Model() == Enqueued(old(Model()), t, q) && request == (t !in old(needs))
    {
      var queue := if t in queued then queued[t] else [];
      var count := 0;
      for i := 0 to |queue|
        invariant count + Total(queue[i..]) == Total(queue)
      {
        assert queue[i..][1..] == queue[i + 1..];
        count := count + |queue[i].patches|;
      }
      assert queue[|queue|..] == [];
      if count + |q.patches| <= MAX_QUEUED && |queue| < MAX_QUEUED {
        queued := queued[t := queue + [q]];
      }
      request := t !in needs;
      if q.revision > (if t in needs then needs[t] else 0) {
        needs := needs[t := q.revision];
      }
    }

    /** While over the limit, forget the oldest thread that is neither current, active nor waiting. */
    method EvictIdle(cur: ThreadId) returns (ghost gone: seq<ThreadId>)
      modifies this
      ensures Evictions(old(threads), cur, gone) && Model() == Drop(old(Model()), Names(gone))
    {
      gone := [];
      ghost var first := Model();
      DropNothing(first);
      while true
        invariant Shedding(first.threads, cur, gone) && Model() == Drop(first, Names(gone))
        decreases threads.Keys
      {
        var candidate := NextEviction(cur);
        if candidate.None? {
          return;
        }
        DropOneMore(first, gone, candidate.value);
        SheddingGoesOn(first.threads, cur, gone, candidate.value);
        gone := gone + [candidate.value];
        Forget(candidate.value);
      }
    }

    method Forget(c: ThreadId)
      modifies this
      ensures Model() == Drop(old(Model()), {c})
    {
      threads, queued, followUps, needs := threads - {c}, queued - {c}, followUps - {c}, needs - {c};
    }

    method NextEviction(cur: ThreadId) returns (candidate: Option<ThreadId>)
      ensures if candidate.None? then AtRest(threads, cur) else Sheds(threads, cur, candidate.value)
      ensures candidate.Some? ==> candidate.value in threads
    {
      candidate := None;
      if |threads| > MAX_THREADS {
        candidate := OldestIdle(cur);
      }
    }

    /** One scan over the cache, in no particular order. */
    method OldestIdle(cur: ThreadId) returns (candidate: Option<ThreadId>)
      ensures candidate.None? ==> forall c :: !Evictable(threads, cur, c)
      ensures candidate.Some? ==> Oldest(threads, cur, candidate.value)
    {
      candidate := None;
      var todo := threads.Keys;
      while todo != {}
        invariant todo <= threads.Keys
        invariant candidate.None? ==> forall c :: Evictable(threads, cur, c) ==> c in todo
        invariant candidate.Some? ==>
                    && Evictable(threads, cur, candidate.value)
                    && forall d :: Evictable(threads, cur, d) && d !in todo ==>
                         threads[candidate.value].updatedAt <= threads[d].updatedAt
        decreases todo
      {
        var t :| t in todo;
        todo := todo - {t};
        if Evictable(threads, cur, t) &&
           (candidate.None? || threads[t].updatedAt < threads[candidate.value].updatedAt) {
          candidate := Some(t);
        }
      }
    }

    /** Follow-up drafts of a thread: remembered for its next snapshot and shown at once if the cached
        connection is the one that sent them. */
    method ApplyQueuedFollowUps(e: Event) returns (applied: bool, ghost gone: seq<ThreadId>)
      requires e.FollowUpsEvent?
      modifies this
      ensures Allowed(view, old(Model()), e, gone) && Model() == Next(view, old(Model()), e, gone)
      ensures applied == Applied(view, old(Model()), e)
    {
      applied, gone := false, [];
      var t := Id(e.thread);
      if t == NO_THREAD || (t in threads && e.followEpoch < threads[t].epoch) ||
         (t in followUps && e.followEpoch < followUps[t].epoch) {
        return;
      }
      gone := NoteFollowUps(t, e);
      if t in threads && threads[t].epoch == e.followEpoch {
        threads := threads[t := threads[t].(followUps := e.messages, updatedAt := e.clock(1))];
        applied := true;
      }
    }

    method NoteFollowUps(t: ThreadId, e: Event) returns (ghost gone: seq<ThreadId>)
      requires e.FollowUpsEvent? && t == Id(e.thread)
      modifies `followUps
      ensures OrphanEvictions(Noted(old(Model()), e).followUps, threads.Keys, t, gone)
      ensures followUps == Noted(old(Model()), e).followUps - Names(gone)
    {
      followUps := followUps[t := FollowUps(e.followEpoch, e.messages, e.clock(0))];
      gone := EvictOrphans(t);
    }

    /** While there are too many follow-ups without a cached thread, forget the oldest. */
    method EvictOrphans(cur: ThreadId) returns (ghost gone: seq<ThreadId>)
      modifies `followUps
      ensures OrphanEvictions(old(followUps), threads.Keys, cur, gone)
      ensures followUps == old(followUps) - Names(gone)
    {
      gone := [];
      assert Names([]) == {} && followUps - {} == followUps;
      while true
        invariant SheddingOrphans(old(followUps), threads.Keys, cur, gone)
        invariant followUps == old(followUps) - Names(gone)
        decreases followUps.Keys
      {
        var candidate := NextOrphan(cur);
        if candidate.None? {
          return;
        }
        var c := candidate.value;
        OrphansGoOn(old(followUps), threads.Keys, cur, gone, c);
        OneNameMore(old(followUps), gone, c);
        followUps := followUps - {c};
        gone := gone + [c];
      }
    }

    method NextOrphan(cur: ThreadId) returns (candidate: Option<ThreadId>)
      ensures if candidate.None? then OrphansAtRest(followUps, threads.Keys, cur)
              else ShedsOrphan(followUps, threads.Keys, cur, candidate.value)
      ensures candidate.Some? ==> candidate.value in followUps
    {
      candidate := OldestOrphan(cur, followUps.Keys - threads.Keys);
      if |followUps.Keys - threads.Keys| <= MAX_THREADS {
        candidate := None;
      }
    }

    /** One scan over the orphans, in no particular order: the first by time, ties by identifier. */
    method OldestOrphan(cur: ThreadId, orphans: set<ThreadId>) returns (candidate: Option<ThreadId>)
      requires orphans <= followUps.Keys
      ensures candidate.None? ==> orphans <= {cur}
      ensures candidate.Some? ==>
                && candidate.value in orphans && candidate.value != cur
                && forall d :: d in orphans && d != cur && d != candidate.value ==>
                     !OlderOrphan(followUps, d, candidate.value)
    {
      candidate := None;
      var todo := orphans;
      while todo != {}
        invariant todo <= orphans
        invariant candidate.None? ==> forall d :: d in orphans && d !in todo ==> d == cur
        invariant candidate.Some? ==>
                    && candidate.value in orphans && candidate.value != cur
                    && forall d :: d in orphans && d !in todo && d != cur && d != candidate.value ==>
                         !OlderOrphan(followUps, d, candidate.value)
        decreases todo
      {
        var t :| t in todo;
        if t != cur && (candidate.None? || OlderOrphan(followUps, t, candidate.value)) {
          if candidate.Some? {
            var c := candidate.value;
            forall d | d in orphans && (d !in todo || d == c) && d != cur && d != t
              ensures !OlderOrphan(followUps, d, t)
            {
              OlderIsTransitive(followUps, d, t, c);
              LessIsIrreflexive(c.text);
            }
          }
          candidate := Some(t);
        }
        todo := todo - {t};
      }
    }
  }

  lemma {:induction false} LessIsIrreflexive(a: string)
    ensures !Less(a, a)
    decreases |a|
  {
    if a != "" {
      LessIsIrreflexive(a[1..]);
    }
  }

  lemma {:induction false} LessIsTransitive(a: string, b: string, c: string)
    requires Less(a, b) && Less(b, c)
    ensures Less(a, c)
    decreases |a|
  {
    if a != "" && a[0] == b[0] == c[0] {
      LessIsTransitive(a[1..], b[1..], c[1..]);
    }
  }

  lemma {:induction false} OlderIsTransitive(fu: map<ThreadId, FollowUps>, a: ThreadId, b: ThreadId, c: ThreadId)
    requires a in fu && b in fu && c in fu
    ensures OlderOrphan(fu, a, b) && OlderOrphan(fu, b, c) ==> OlderOrphan(fu, a, c)
  {
    if Less(a.text, b.text) && Less(b.text, c.text) {
      LessIsTransitive(a.text, b.text, c.text);
    }
  }

  lemma {:induction false} OrphansGoOn(fu: map<ThreadId, FollowUps>, known: set<ThreadId>, cur: ThreadId,
                                      gone: seq<ThreadId>, c: ThreadId)
    requires SheddingOrphans(fu, known, cur, gone) && ShedsOrphan(fu - Names(gone), known, cur, c)
    ensures SheddingOrphans(fu, known, cur, gone + [c])
  {
    assert (gone + [c])[..|gone|] == gone;
  }

  lemma OneNameMore(fu: map<ThreadId, FollowUps>, gone: seq<ThreadId>, c: ThreadId)
    ensures (fu - Names(gone)) - {c} == fu - Names(gone + [c])
  {
    assert Names(gone + [c]) == Names(gone) + {c};
  }

  lemma DropNothing(s: State)
    ensures Drop(s, Names([])) == s
  {
    assert Names([]) == {};
    assert s.threads - {} == s.threads && s.queued - {} == s.queued;
    assert s.followUps - {} == s.followUps && s.needs - {} == s.needs;
  }

  lemma DropOneMore(s: State, gone: seq<ThreadId>, c: ThreadId)
    ensures Drop(s, Names(gone + [c])) == Drop(Drop(s, Names(gone)), {c})
  {
    var g := Names(gone);
    assert Names(gone + [c]) == g + {c};
    assert s.threads - (g + {c}) == (s.threads - g) - {c};
    assert s.queued - (g + {c}) == (s.queued - g) - {c};
    assert s.followUps - (g + {c}) == (s.followUps - g) - {c};
    assert s.needs - (g + {c}) == (s.needs - g) - {c};
  }

  lemma {:induction false} SheddingGoesOn(threads: map<ThreadId, Snapshot>, cur: ThreadId, gone: seq<ThreadId>, c: ThreadId)
    requires Shedding(threads, cur, gone) && Sheds(threads - Names(gone), cur, c)
    ensures Shedding(threads, cur, gone + [c])
  {
    assert (gone + [c])[..|gone|] == gone;
  }
}
