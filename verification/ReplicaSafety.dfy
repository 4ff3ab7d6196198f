/** What every run of the Desktop state replica keeps. */
module ReplicaSafety {
  import opened Json
  import opened JsonPatch
  import opened StateReplica

  // ---- Invariants of every run, whatever the peer sends ----

  /** A queued set is no silent gap: the cache already covers it, or a snapshot at or above its revision
      has been asked for. */
  predicate Covered(s: State, t: ThreadId, q: PatchSet) {
    || (t in s.threads && s.threads[t].epoch == q.epoch && q.revision <= s.threads[t].revision)
    || (t in s.needs && q.revision <= s.needs[t])
  }

  ghost predicate WellNamed(s: State) {
    forall t :: t in s.threads ==> t != NO_THREAD && s.threads[t].threadId == t && RawId(s.threads[t].raw) == t
  }

  ghost predicate NoSilentGap(s: State) {
    forall t, q :: t in s.queued && q in s.queued[t] && q.revision >= 1 ==> Covered(s, t, q)
  }

  ghost predicate BoundedQueues(s: State) {
    forall t :: t in s.queued ==> |s.queued[t]| <= MAX_QUEUED && Total(s.queued[t]) <= MAX_QUEUED
  }

  ghost predicate Sound(s: State) {
    WellNamed(s) && NoSilentGap(s) && BoundedQueues(s)
  }

  predicate FewOrphans(fu: map<ThreadId, FollowUps>, known: set<ThreadId>) {
    |fu.Keys - known| <= MAX_THREADS
  }

  predicate BoundedOrphans(s: State) {
    FewOrphans(s.followUps, s.threads.Keys)
  }

  /** Every queued set of `r` comes from `queue`. */
  lemma {:induction false} ReplayFacts(view: Json -> View, fu: map<ThreadId, FollowUps>, cur: Snapshot,
                                      queue: seq<PatchSet>, clock: nat -> int, at: nat)
    requires RawId(cur.raw) == cur.threadId
    ensures var r := Replay(view, fu, cur, queue, clock, at);
            && r.cur.threadId == cur.threadId && RawId(r.cur.raw) == cur.threadId
            && r.cur.epoch == cur.epoch && r.cur.revision >= cur.revision
            && |r.remaining| <= |queue| && Total(r.remaining) <= Total(queue)
            && (forall q :: q in r.remaining ==> q in queue && q.epoch == cur.epoch)
    decreases |queue|
  {
    if queue != [] {
      var q := queue[0];
      var rest := queue[1..];
      if Obsolete(cur, q) {
        ReplayFacts(view, fu, cur, rest, clock, at + 1);
      } else if q.base != cur.revision {
        ReplayFacts(view, fu, cur, rest, clock, at + 1);
        var r := Replay(view, fu, cur, rest, clock, at + 1);
        assert ([q] + r.remaining)[1..] == r.remaining;
      } else {
        match Advance(view, fu, cur, q, clock(at))
        case None => assert [q][1..] == [];
        case Some(next) => ReplayFacts(view, fu, next, rest, clock, at + 1);
      }
    }
  }

  lemma {:induction false} EvictionSpares(threads: map<ThreadId, Snapshot>, cur: ThreadId, gone: seq<ThreadId>)
    requires Shedding(threads, cur, gone)
    ensures cur !in gone
    decreases |gone|
  {
    if gone != [] {
      EvictionSpares(threads, cur, gone[..|gone| - 1]);
    }
  }

  lemma {:induction false} OrphanPassSpares(fu: map<ThreadId, FollowUps>, known: set<ThreadId>, cur: ThreadId, gone: seq<ThreadId>)
    requires SheddingOrphans(fu, known, cur, gone)
    ensures cur !in gone
    decreases |gone|
  {
    if gone != [] {
      OrphanPassSpares(fu, known, cur, gone[..|gone| - 1]);
    }
  }

  lemma {:induction false} RestedOrphans(fu: map<ThreadId, FollowUps>, known: set<ThreadId>, cur: ThreadId)
    requires OrphansAtRest(fu, known, cur)
    ensures FewOrphans(fu, known)
  {
    if fu.Keys - known <= {cur} {
      SmallSet(fu.Keys - known, {cur});
    }
  }

  lemma {:induction false} FewerOrphans(s: State, n: State)
    requires BoundedOrphans(s) && n.followUps.Keys - n.threads.Keys <= s.followUps.Keys - s.threads.Keys
    ensures BoundedOrphans(n)
  {
    SmallSet(n.followUps.Keys - n.threads.Keys, s.followUps.Keys - s.threads.Keys);
  }

  lemma {:induction false} SmallSet<T>(a: set<T>, b: set<T>)
    requires a <= b
    ensures |a| <= |b|
    decreases |a|
  {
    if a != {} {
      var x :| x in a;
      SmallSet(a - {x}, b - {x});
    }
  }

  lemma {:induction false} TotalAppend(queue: seq<PatchSet>, q: PatchSet)
    ensures Total(queue + [q]) == Total(queue) + |q.patches|
    decreases |queue|
  {
    if queue == [] {
      assert queue + [q] == [q] && [q][1..] == [];
    } else {
      TotalAppend(queue[1..], q);
      assert (queue + [q])[1..] == queue[1..] + [q];
    }
  }

  lemma {:induction false} DropKeeps(s: State, gone: set<ThreadId>)
    requires Sound(s)
    ensures Sound(Drop(s, gone))
  {
    var d := Drop(s, gone);
    forall t, q | t in d.queued && q in d.queued[t] && q.revision >= 1
      ensures Covered(d, t, q)
    {
      assert Covered(s, t, q);
    }
  }

  /** A settled request leaves no gap behind: what is still queued belongs to the cached connection. */
  lemma {:induction false} SettleKeeps(s: State, t: ThreadId)
    requires Sound(s) && t in s.threads
    requires t in s.queued ==> forall q :: q in s.queued[t] ==> q.epoch == s.threads[t].epoch
    ensures Sound(Settle(s, t, s.threads[t].revision))
  {
    var n := Settle(s, t, s.threads[t].revision);
    forall u, q | u in n.queued && q in n.queued[u] && q.revision >= 1
      ensures Covered(n, u, q)
    {
      assert Covered(s, u, q);
    }
  }

  lemma {:induction false} ReplayingFacts(view: Json -> View, s: State, e: Event)
    requires e.SnapshotEvent? && AcceptsSnapshot(s, e)
    ensures var t, r := Id(e.thread), Replaying(view, s, e);
            && r.cur.threadId == t && RawId(r.cur.raw) == t && r.cur.epoch == e.epoch && r.cur.revision >= e.revision
            && |r.remaining| <= |Queue(s, t)| && Total(r.remaining) <= Total(Queue(s, t))
            && (forall q :: q in r.remaining ==> q in Queue(s, t) && q.epoch == e.epoch)
            && Installed(view, s, e).threads == s.threads[t := r.cur]
            && Installed(view, s, e).queued == StoreQueue(s.queued, t, r.remaining)
            && Installed(view, s, e).needs == s.needs
  {
    var t, mid := Id(e.thread), Received(view, s, e);
    ReplayFacts(view, mid.followUps, mid.threads[t], Queue(mid, t), e.clock, 1);
    assert Queue(mid, t) == Queue(s, t);
  }

  /** Storing a newer thread together with what is left of its queue. */
  lemma {:induction false} StoreKeeps(s: State, t: ThreadId, cur: Snapshot, rest: seq<PatchSet>, fu: map<ThreadId, FollowUps>)
    requires Sound(s) && t != NO_THREAD && cur.threadId == t && RawId(cur.raw) == t
    requires t in s.threads ==>
               s.threads[t].epoch < cur.epoch || (s.threads[t].epoch == cur.epoch && s.threads[t].revision <= cur.revision)
    requires |rest| <= |Queue(s, t)| && Total(rest) <= Total(Queue(s, t))
    requires forall q :: q in rest ==> q in Queue(s, t) && (t in s.threads && s.threads[t].epoch == q.epoch ==> q.epoch == cur.epoch)
    ensures Sound(State(s.threads[t := cur], StoreQueue(s.queued, t, rest), fu, s.needs))
  {
    var n := State(s.threads[t := cur], StoreQueue(s.queued, t, rest), fu, s.needs);
    forall u, q | u in n.queued && q in n.queued[u] && q.revision >= 1
      ensures Covered(n, u, q)
    {
      assert u in s.queued && q in s.queued[u];
      assert Covered(s, u, q);
    }
  }

  lemma {:induction false} EnqueueKeeps(s: State, t: ThreadId, q: PatchSet)
    requires Sound(s)
    ensures Sound(Enqueued(s, t, q))
  {
    var n := Enqueued(s, t, q);
    TotalAppend(Queue(s, t), q);
    forall u, p | u in n.queued && p in n.queued[u] && p.revision >= 1
      ensures Covered(n, u, p)
    {
      if p in Queue(s, u) {
        assert Covered(s, u, p);
      } else {
        assert u == t && p == q;
      }
    }
  }

  lemma {:induction false} SparesCurrent(view: Json -> View, s: State, e: Event, gone: seq<ThreadId>)
    requires Allowed(view, s, e, gone)
    ensures Id(e.thread) !in Names(gone)
  {
    var t := Id(e.thread);
    if gone != [] {
      match e
      case SnapshotEvent(_, _, _, _, _) => EvictionSpares(Installed(view, s, e).threads, t, gone);
      case PatchEvent(_, _, _) => EvictionSpares(Updated(s, Patched(view, s, e).value).threads, t, gone);
      case FollowUpsEvent(_, _, _, _) => OrphanPassSpares(Noted(s, e).followUps, s.threads.Keys, t, gone);
    }
  }

  lemma {:induction false} SnapshotKeeps(view: Json -> View, s: State, e: Event, gone: seq<ThreadId>)
    requires e.SnapshotEvent? && Sound(s) && Id(e.thread) !in Names(gone)
    ensures Sound(NextSnapshot(view, s, e, gone))
  {
    if AcceptsSnapshot(s, e) {
      ReplayingFacts(view, s, e);
      var t, r, i := Id(e.thread), Replaying(view, s, e), Installed(view, s, e);
      StoreKeeps(s, t, r.cur, r.remaining, i.followUps);
      DropKeeps(i, Names(gone));
      SettleKeeps(Drop(i, Names(gone)), t);
    }
  }

  lemma {:induction false} PatchKeeps(view: Json -> View, s: State, e: Event, gone: seq<ThreadId>)
    requires e.PatchEvent? && Sound(s)
    ensures Sound(NextPatch(view, s, e, gone))
  {
    var t, q := Id(e.thread), e.patchSet;
    if t != NO_THREAD && !Stale(s, t, q.epoch, q.revision) {
      if !Contiguous(s, t, q) {
        EnqueueKeeps(s, t, q);
      } else if Patched(view, s, e).Some? {
        var i := Updated(s, Patched(view, s, e).value);
        forall u, p | u in i.queued && p in i.queued[u] && p.revision >= 1
          ensures Covered(i, u, p)
        {
          assert Covered(s, u, p);
        }
        DropKeeps(i, Names(gone));
      }
    }
  }

  lemma {:induction false} FollowUpsKeep(s: State, e: Event, gone: seq<ThreadId>)
    requires e.FollowUpsEvent? && Sound(s)
    ensures Sound(NextFollowUps(s, e, gone))
  {
    var n := NextFollowUps(s, e, gone);
    FollowUpsOnly(s, e, gone);
    forall t, q | t in n.queued && q in n.queued[t] && q.revision >= 1
      ensures Covered(n, t, q)
    {
      assert Covered(s, t, q);
    }
  }

  /** Follow-ups change neither the documents nor the queues. */
  lemma {:induction false} FollowUpsOnly(s: State, e: Event, gone: seq<ThreadId>)
    requires e.FollowUpsEvent?
    ensures var n := NextFollowUps(s, e, gone);
            && n.queued == s.queued && n.needs == s.needs && n.threads.Keys == s.threads.Keys
            && forall t :: t in s.threads ==>
                 n.threads[t] == s.threads[t].(followUps := n.threads[t].followUps, updatedAt := n.threads[t].updatedAt)
  {
  }

  /** Every broadcast, genuine or not, in any order, keeps the cache sound. */
  lemma {:induction false} StepKeepsSound(view: Json -> View, s: State, e: Event, gone: seq<ThreadId>)
    requires Sound(s) && Allowed(view, s, e, gone)
    ensures Sound(Next(view, s, e, gone))
  {
    SparesCurrent(view, s, e, gone);
    match e
    case SnapshotEvent(_, _, _, _, _) => SnapshotKeeps(view, s, e, gone);
    case PatchEvent(_, _, _) => PatchKeeps(view, s, e, gone);
    case FollowUpsEvent(_, _, _, _) => FollowUpsKeep(s, e, gone);
  }

  /** Follow-ups without a cached thread stay bounded. */
  lemma {:induction false} StepKeepsOrphans(view: Json -> View, s: State, e: Event, gone: seq<ThreadId>)
    requires BoundedOrphans(s) && Allowed(view, s, e, gone)
    ensures BoundedOrphans(Next(view, s, e, gone))
  {
    if e.FollowUpsEvent? && AcceptsFollowUps(s, e) {
      RestedOrphans(Noted(s, e).followUps - Names(gone), s.threads.Keys, Id(e.thread));
      FollowUpsStep(view, s, e, gone);
    } else {
      OrphansShrink(view, s, e, gone);
      FewerOrphans(s, Next(view, s, e, gone));
    }
  }

  lemma {:induction false} FollowUpsStep(view: Json -> View, s: State, e: Event, gone: seq<ThreadId>)
    requires e.FollowUpsEvent? && AcceptsFollowUps(s, e)
    ensures var n := Next(view, s, e, gone);
            n.followUps == Noted(s, e).followUps - Names(gone) && n.threads.Keys == s.threads.Keys
  {
  }

  lemma {:induction false} OrphansShrink(view: Json -> View, s: State, e: Event, gone: seq<ThreadId>)
    requires !(e.FollowUpsEvent? && AcceptsFollowUps(s, e))
    ensures var n := Next(view, s, e, gone);
            n.followUps.Keys - n.threads.Keys <= s.followUps.Keys - s.threads.Keys
  {
  }

  /** An accepted snapshot whose replay failed; it evicts nothing. */
  predicate Stumbles(view: Json -> View, s: State, e: Event) {
    e.SnapshotEvent? && AcceptsSnapshot(s, e) && Replaying(view, s, e).failed
  }

  /** After an applied update that did not fail in replay, more than the limit of cached threads means that all
      but the current one are active or wait for the user: always after a snapshot or a patch set, and after
      follow-ups exactly if it was so before, since they evict no thread. */
  lemma {:induction false} EvictionBoundsExactly(view: Json -> View, s: State, e: Event, gone: seq<ThreadId>)
    requires Allowed(view, s, e, gone) && Applied(view, s, e) && !Stumbles(view, s, e)
    ensures Id(e.thread) in Next(view, s, e, gone).threads
    ensures AtRest(Next(view, s, e, gone).threads, Id(e.thread))
            <==> (e.FollowUpsEvent? ==> AtRest(s.threads, Id(e.thread)))
  {
    if e.FollowUpsEvent? {
      FollowUpsOnly(s, e, gone);
      FollowUpsKeepRest(s, e, gone, Id(e.thread));
    } else {
      SparesCurrent(view, s, e, gone);
      var i := if e.SnapshotEvent? then Installed(view, s, e) else Updated(s, Patched(view, s, e).value);
      AppliedThreads(view, s, e, gone);
      assert Evictions(i.threads, Id(e.thread), gone);
    }
  }

  lemma {:induction false} AppliedThreads(view: Json -> View, s: State, e: Event, gone: seq<ThreadId>)
    requires Applied(view, s, e) && !e.FollowUpsEvent?
    ensures var i := if e.SnapshotEvent? then Installed(view, s, e) else Updated(s, Patched(view, s, e).value);
            Id(e.thread) in i.threads && Next(view, s, e, gone).threads == i.threads - Names(gone)
  {
  }

  lemma {:induction false} FollowUpsKeepRest(s: State, e: Event, gone: seq<ThreadId>, cur: ThreadId)
    requires e.FollowUpsEvent?
    ensures AtRest(NextFollowUps(s, e, gone).threads, cur) <==> AtRest(s.threads, cur)
  {
    var a, b := s.threads, NextFollowUps(s, e, gone).threads;
    FollowUpsOnly(s, e, gone);
    assert |a.Keys| == |b.Keys|;
    assert forall c :: Evictable(a, cur, c) <==> Evictable(b, cur, c);
  }

  /** An eviction pass removes idle threads only. */
  lemma {:induction false} EvictsIdleOnly(threads: map<ThreadId, Snapshot>, cur: ThreadId, gone: seq<ThreadId>)
    requires Shedding(threads, cur, gone)
    ensures forall c :: c in gone ==> Evictable(threads, cur, c)
    decreases |gone|
  {
    if gone != [] {
      var n := |gone| - 1;
      EvictsIdleOnly(threads, cur, gone[..n]);
      assert gone == gone[..n] + [gone[n]];
    }
  }

  /** And it stops at the limit. */
  lemma {:induction false} EvictionIsFrugal(threads: map<ThreadId, Snapshot>, cur: ThreadId, gone: seq<ThreadId>)
    requires Shedding(threads, cur, gone) && gone != []
    ensures |threads - Names(gone)| >= MAX_THREADS
  {
    var n := |gone| - 1;
    var before := threads - Names(gone[..n]);
    assert gone == gone[..n] + [gone[n]];
    assert threads - Names(gone) == before - {gone[n]};
    OneThreadFewer(before, gone[n]);
  }

  lemma {:induction false} OneThreadFewer(threads: map<ThreadId, Snapshot>, c: ThreadId)
    requires c in threads
    ensures |threads - {c}| == |threads| - 1
  {
    assert threads.Keys == (threads - {c}).Keys + {c};
  }

  /** Some thread can be named such that more than the limit means that all others are busy. */
  ghost predicate Bounded(threads: map<ThreadId, Snapshot>) {
    exists cur :: AtRest(threads, cur)
  }

  lemma {:induction false} StepKeepsBounded(view: Json -> View, s: State, e: Event, gone: seq<ThreadId>)
    requires Bounded(s.threads) && Allowed(view, s, e, gone) && !Stumbles(view, s, e)
    ensures Bounded(Next(view, s, e, gone).threads)
  {
    var cur :| AtRest(s.threads, cur);
    if e.FollowUpsEvent? {
      FollowUpsKeepRest(s, e, gone, cur);
    } else if Applied(view, s, e) {
      EvictionBoundsExactly(view, s, e, gone);
    } else {
      assert Next(view, s, e, gone).threads == s.threads;
    }
  }

  // ---- Progress of a cached thread ----

  predicate NotBefore(a: Snapshot, b: Snapshot) {
    a.epoch < b.epoch || (a.epoch == b.epoch && a.revision <= b.revision)
  }

  lemma {:induction false} SnapshotGoesOn(view: Json -> View, s: State, e: Event, gone: seq<ThreadId>, t: ThreadId)
    requires e.SnapshotEvent? && t in s.threads && t in NextSnapshot(view, s, e, gone).threads
    ensures NotBefore(s.threads[t], NextSnapshot(view, s, e, gone).threads[t])
    ensures Id(e.thread) != t ==> NextSnapshot(view, s, e, gone).threads[t] == s.threads[t]
  {
    if AcceptsSnapshot(s, e) {
      ReplayingFacts(view, s, e);
    }
  }

  lemma {:induction false} PatchGoesOn(view: Json -> View, s: State, e: Event, gone: seq<ThreadId>, t: ThreadId)
    requires e.PatchEvent? && t in s.threads && t in NextPatch(view, s, e, gone).threads
    ensures NotBefore(s.threads[t], NextPatch(view, s, e, gone).threads[t])
    ensures Id(e.thread) != t ==> NextPatch(view, s, e, gone).threads[t] == s.threads[t]
  {
  }

  /** No step takes a thread that stays cached back to an older connection or revision. */
  lemma {:induction false} StepNeverGoesBack(view: Json -> View, s: State, e: Event, gone: seq<ThreadId>, t: ThreadId)
    requires t in s.threads && t in Next(view, s, e, gone).threads
    ensures NotBefore(s.threads[t], Next(view, s, e, gone).threads[t])
    ensures Id(e.thread) != t ==> Next(view, s, e, gone).threads[t] == s.threads[t]
  {
    match e
    case SnapshotEvent(_, _, _, _, _) => SnapshotGoesOn(view, s, e, gone, t);
    case PatchEvent(_, _, _) => PatchGoesOn(view, s, e, gone, t);
    case FollowUpsEvent(_, _, _, _) => FollowUpsOnly(s, e, gone);
  }

  // ---- Agreement with a server history ----

  /** The server's state of a thread at each (epoch, revision) it ever published. */
  type History = (ThreadId, nat, nat) -> Option<Json>

  /** The patch set leads from one published state to another. */
  ghost predicate Edge(h: History, t: ThreadId, q: PatchSet) {
    && h(t, q.epoch, q.base).Some? && h(t, q.epoch, q.revision).Some?
    && ApplyAll(h(t, q.epoch, q.base).value, q.patches) == h(t, q.epoch, q.revision)
  }

  /** The broadcast tells the truth about the history; nothing is said about when it arrives, how often,
      or what was lost before it. */
  ghost predicate Genuine(h: History, e: Event) {
    match e
    case SnapshotEvent(t, epoch, revision, raw, _) => h(Id(t), epoch, revision) == Some(raw)
    case PatchEvent(t, q, _) => Edge(h, Id(t), q)
    case FollowUpsEvent(_, _, _, _) => true
  }

  ghost predicate Agrees(h: History, s: State) {
    && (forall t :: t in s.threads ==> h(t, s.threads[t].epoch, s.threads[t].revision) == Some(s.threads[t].raw))
    && (forall t, q :: t in s.queued && q in s.queued[t] ==> Edge(h, t, q))
  }

  /** Published states are conversation objects that carry their own thread identifier. */
  ghost predicate SelfNamed(h: History) {
    forall t, epoch, revision :: h(t, epoch, revision).Some? ==> RawId(h(t, epoch, revision).value) == t
  }

  lemma {:induction false} ReplayAgrees(h: History, view: Json -> View, fu: map<ThreadId, FollowUps>, t: ThreadId,
                                       cur: Snapshot, queue: seq<PatchSet>, clock: nat -> int, at: nat)
    requires cur.threadId == t && h(t, cur.epoch, cur.revision) == Some(cur.raw)
    requires forall q :: q in queue ==> Edge(h, t, q)
    ensures var r := Replay(view, fu, cur, queue, clock, at).cur;
            r.threadId == t && h(t, r.epoch, r.revision) == Some(r.raw)
    ensures t != NO_THREAD && SelfNamed(h) ==> !Replay(view, fu, cur, queue, clock, at).failed
    decreases |queue|
  {
    if queue != [] {
      var q := queue[0];
      if Obsolete(cur, q) || q.base != cur.revision {
        ReplayAgrees(h, view, fu, t, cur, queue[1..], clock, at + 1);
      } else {
        assert Edge(h, t, q);
        match Advance(view, fu, cur, q, clock(at))
        case None =>
        case Some(next) => ReplayAgrees(h, view, fu, t, next, queue[1..], clock, at + 1);
      }
    }
  }

  lemma {:induction false} SnapshotAgrees(h: History, view: Json -> View, s: State, e: Event, gone: seq<ThreadId>)
    requires e.SnapshotEvent? && AcceptsSnapshot(s, e) && Agrees(h, s) && Genuine(h, e)
    ensures Agrees(h, NextSnapshot(view, s, e, gone))
    ensures SelfNamed(h) ==> !Replaying(view, s, e).failed
  {
    ReplayingFacts(view, s, e);
    var t, mid := Id(e.thread), Received(view, s, e);
    ReplayAgrees(h, view, mid.followUps, t, mid.threads[t], Queue(mid, t), e.clock, 1);
    var i := Installed(view, s, e);
    assert Agrees(h, i);
    assert Agrees(h, Drop(i, Names(gone)));
  }

  lemma {:induction false} PatchAgrees(h: History, view: Json -> View, s: State, e: Event, gone: seq<ThreadId>)
    requires e.PatchEvent? && Agrees(h, s) && Genuine(h, e)
    ensures Agrees(h, NextPatch(view, s, e, gone))
  {
    var t, q := Id(e.thread), e.patchSet;
    assert Agrees(h, Enqueued(s, t, q));
    var p := Patched(view, s, e);
    if p.Some? {
      assert Agrees(h, Updated(s, p.value));
    }
  }

  lemma {:induction false} StepAgrees(h: History, view: Json -> View, s: State, e: Event, gone: seq<ThreadId>)
    requires Agrees(h, s) && Genuine(h, e)
    ensures Agrees(h, Next(view, s, e, gone))
    ensures SelfNamed(h) && e.SnapshotEvent? && AcceptsSnapshot(s, e) ==> !Replaying(view, s, e).failed
  {
    match e
    case SnapshotEvent(_, _, _, _, _) =>
      if AcceptsSnapshot(s, e) {
        SnapshotAgrees(h, view, s, e, gone);
      }
    case PatchEvent(_, _, _) => PatchAgrees(h, view, s, e, gone);
    case FollowUpsEvent(_, _, _, _) => FollowUpsOnly(s, e, gone);
  }

  // ---- Runs ----

  datatype Move = Move(event: Event, gone: seq<ThreadId>)

  /** The threads a broadcast evicts; follow-ups evict none. */
  function Evicted(m: Move): set<ThreadId> {
    if m.event.FollowUpsEvent? then {} else Names(m.gone)
  }

  function Start(): State {
    State(map[], map[], map[], map[])
  }

  /** The empty store, then one broadcast after another. */
  ghost predicate Follows(view: Json -> View, states: seq<State>, moves: seq<Move>) {
    && |states| == |moves| + 1 && states[0] == Start()
    && forall i :: 0 <= i < |moves| ==> Links(view, states, moves, i)
  }

  ghost predicate Links(view: Json -> View, states: seq<State>, moves: seq<Move>, i: nat)
    requires i < |moves| == |states| - 1
  {
    states[i + 1] == Next(view, states[i], moves[i].event, moves[i].gone)
  }

  ghost predicate Permits(view: Json -> View, states: seq<State>, moves: seq<Move>, i: nat)
    requires i < |moves| == |states| - 1
  {
    Allowed(view, states[i], moves[i].event, moves[i].gone)
  }

  /** A run: every eviction choice is one the store could make. */
  ghost predicate Run(view: Json -> View, states: seq<State>, moves: seq<Move>) {
    && Follows(view, states, moves)
    && forall i :: 0 <= i < |moves| ==> Permits(view, states, moves, i)
  }

  /** Main theorem, first part: in every state of every run identifiers, queue bounds and gap coverage hold,
      whatever arrived. */
  lemma {:induction false} RunIsSound(view: Json -> View, states: seq<State>, moves: seq<Move>, n: nat)
    requires Run(view, states, moves) && n <= |moves|
    ensures Sound(states[n])
    decreases n
  {
    if n > 0 {
      var m := n - 1;
      RunIsSound(view, states, moves, m);
      assert Links(view, states, moves, m) && Permits(view, states, moves, m);
      StepKeepsSound(view, states[m], moves[m].event, moves[m].gone);
    }
  }

  /** Main theorem, second part: so does the bound on follow-ups without a cached thread. */
  lemma {:induction false} RunBoundsOrphans(view: Json -> View, states: seq<State>, moves: seq<Move>, n: nat)
    requires Run(view, states, moves) && n <= |moves|
    ensures BoundedOrphans(states[n])
    decreases n
  {
    if n > 0 {
      var m := n - 1;
      RunBoundsOrphans(view, states, moves, m);
      assert Links(view, states, moves, m) && Permits(view, states, moves, m);
      StepKeepsOrphans(view, states[m], moves[m].event, moves[m].gone);
    }
  }

  /** Main theorem, third part: if every broadcast so far was genuine then, however many were lost, repeated or
      reordered, each cached thread holds the server's state at exactly its epoch and revision and each queued
      set is an edge of the history. */
  lemma {:induction false} RunAgrees(h: History, view: Json -> View, states: seq<State>, moves: seq<Move>, n: nat)
    requires Follows(view, states, moves) && n <= |moves|
    requires forall i :: 0 <= i < n ==> Genuine(h, moves[i].event)
    ensures Agrees(h, states[n])
    decreases n
  {
    if n > 0 {
      var m := n - 1;
      RunAgrees(h, view, states, moves, m);
      assert Links(view, states, moves, m);
      StepAgrees(h, view, states[m], moves[m].event, moves[m].gone);
    }
  }

  /** Main theorem, fourth part: in every run whose replays do not fail, more than 512 cached threads means that
      all but one are active or wait for the user. */
  lemma {:induction false} RunBoundsThreads(view: Json -> View, states: seq<State>, moves: seq<Move>, n: nat)
    requires Run(view, states, moves) && n <= |moves|
    requires forall i :: 0 <= i < n ==> !Stumbles(view, states[i], moves[i].event)
    ensures Bounded(states[n].threads)
    decreases n
  {
    if n == 0 {
      assert AtRest(Start().threads, NO_THREAD);
    } else {
      var m := n - 1;
      RunBoundsThreads(view, states, moves, m);
      assert Links(view, states, moves, m) && Permits(view, states, moves, m);
      StepKeepsBounded(view, states[m], moves[m].event, moves[m].gone);
    }
  }

  /** In particular when every broadcast is genuine. */
  lemma {:induction false} GenuineRunBoundsThreads(h: History, view: Json -> View, states: seq<State>, moves: seq<Move>, n: nat)
    requires Run(view, states, moves) && n <= |moves| && SelfNamed(h)
    requires forall i :: 0 <= i < n ==> Genuine(h, moves[i].event)
    ensures Bounded(states[n].threads)
  {
    forall i | 0 <= i < n ensures !Stumbles(view, states[i], moves[i].event) {
      RunAgrees(h, view, states, moves, i);
      StepAgrees(h, view, states[i], moves[i].event, moves[i].gone);
    }
    RunBoundsThreads(view, states, moves, n);
  }

  /** In every run a thread that stays cached never goes back. */
  lemma {:induction false} RunNeverGoesBack(view: Json -> View, states: seq<State>, moves: seq<Move>, from: nat, last: nat, t: ThreadId)
    requires Follows(view, states, moves) && from <= last <= |moves|
    requires forall i :: from <= i <= last ==> t in states[i].threads
    ensures NotBefore(states[from].threads[t], states[last].threads[t])
    decreases last
  {
    if from < last {
      var m := last - 1;
      RunNeverGoesBack(view, states, moves, from, m, t);
      assert Links(view, states, moves, m);
      assert t in states[m].threads && t in states[m + 1].threads;
      StepNeverGoesBack(view, states[m], moves[m].event, moves[m].gone, t);
    }
  }
}
