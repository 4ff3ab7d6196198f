/** What a broadcast does to the Desktop state store, in plain terms: what is stored, what waits, what is
    remembered and what is evicted (agent/codex_desktop_state.go, agent/codex_desktop_state_queue.go,
    agent/codex_desktop_state_wire.go). */
module StoreEffects {
  import opened Json
  import opened JsonPatch
  import opened Text
  import opened StateReplica
  import opened ReplicaSafety

  // ---- Broadcasts in plain terms ----

  /** The name of a thread without surrounding white space; empty names name nothing. */
  predicate IsNamed(text: string, t: ThreadId) {
    t.text == Trim(text) && t.text != ""
  }

  /** The document carries the thread's name. */
  predicate Carries(raw: Json, t: ThreadId) {
    raw.Obj? && Name("id") in raw.fields && raw.fields[Name("id")].Str? && IsNamed(raw.fields[Name("id")].s, t)
  }

  /** Newer than what is cached: of a later connection, or of the same one with a higher revision. */
  predicate Newer(s: State, t: ThreadId, epoch: nat, revision: nat) {
    t in s.threads ==>
      epoch > s.threads[t].epoch || (epoch == s.threads[t].epoch && revision > s.threads[t].revision)
  }

  /** The set starts exactly where the cached thread is. */
  predicate Continues(s: State, t: ThreadId, q: PatchSet) {
    t in s.threads && s.threads[t].epoch == q.epoch && s.threads[t].revision == q.base
  }

  function AllPatches(queue: seq<PatchSet>): (ps: seq<Patch>) {
    if queue == [] then [] else queue[0].patches + AllPatches(queue[1..])
  }

  /** There is room for the set: fewer than 300 sets wait, and with its patches at most 300 patches do. */
  predicate Fits(waiting: seq<PatchSet>, q: PatchSet) {
    |waiting| < 300 && |AllPatches(waiting)| + |q.patches| <= 300
  }

  lemma {:induction false} TotalCounts(queue: seq<PatchSet>)
    ensures Total(queue) == |AllPatches(queue)|
  {
    if queue != [] {
      TotalCounts(queue[1..]);
    }
  }

  // ---- One patch set ----

  /** A set that is news but does not continue the cached thread is put at the end of the thread's queue
      exactly if there is room, and a snapshot up to its revision is wanted either way; nothing else
      changes. */
  lemma {:induction false} GapIsQueued(view: Json -> View, s: State, e: Event, gone: seq<ThreadId>, t: ThreadId)
    requires e.PatchEvent? && IsNamed(e.thread, t)
    requires Newer(s, t, e.patchSet.epoch, e.patchSet.revision) && !Continues(s, t, e.patchSet)
    ensures var n, q := Next(view, s, e, gone), e.patchSet;
            var waiting := if t in s.queued then s.queued[t] else [];
            && (Fits(waiting, q) ==> t in n.queued && n.queued[t] == waiting + [q] && n.queued - {t} == s.queued - {t})
            && (!Fits(waiting, q) ==> n.queued == s.queued)
            && (forall u :: u != t ==> (u in n.needs <==> u in s.needs) && (u in s.needs ==> n.needs[u] == s.needs[u]))
            && (q.revision > 0 ==> t in n.needs && n.needs[t] >= q.revision)
            && (t in n.needs ==> (t in s.needs && n.needs[t] == s.needs[t]) || n.needs[t] == q.revision)
            && n.threads == s.threads && n.followUps == s.followUps
  {
    TotalCounts(if t in s.queued then s.queued[t] else []);
  }

  /** A set that continues the cached thread is applied at once, if its patches apply and leave the thread its
      name; otherwise it changes nothing. */
  lemma {:induction false} ContinuationIsApplied(view: Json -> View, s: State, e: Event, gone: seq<ThreadId>, t: ThreadId)
    requires e.PatchEvent? && IsNamed(e.thread, t) && Allowed(view, s, e, gone)
    requires Newer(s, t, e.patchSet.epoch, e.patchSet.revision) && Continues(s, t, e.patchSet)
    ensures var n, q := Next(view, s, e, gone), e.patchSet;
            match ApplyAll(s.threads[t].raw, q.patches)
            case None => n == s
            case Some(doc) =>
              if !Carries(doc, t) then n == s
              else
                && t in n.threads && n.threads[t].threadId == t
                && n.threads[t].epoch == q.epoch && n.threads[t].revision == q.revision
                && n.threads[t].raw == doc && n.threads[t].view == view(doc)
                && n.threads[t].updatedAt == e.clock(0)
  {
    SparesCurrent(view, s, e, gone);
  }

  /** And it leaves the thread's waiting sets and its wanted snapshot alone. */
  lemma {:induction false} ContinuationLeavesQueue(view: Json -> View, s: State, e: Event, gone: seq<ThreadId>, t: ThreadId)
    requires e.PatchEvent? && IsNamed(e.thread, t) && Allowed(view, s, e, gone) && Continues(s, t, e.patchSet)
    ensures var n := Next(view, s, e, gone); SameAt(s.queued, n.queued, t) && SameAt(s.needs, n.needs, t)
  {
    SparesCurrent(view, s, e, gone);
  }

  /** Old news, and sets that name no thread, change nothing. */
  lemma {:induction false} OldNewsIsDropped(view: Json -> View, s: State, e: Event, gone: seq<ThreadId>)
    requires e.PatchEvent?
    requires Trim(e.thread) == "" || !Newer(s, ThreadId(Trim(e.thread)), e.patchSet.epoch, e.patchSet.revision)
    ensures Next(view, s, e, gone) == s
  {
  }

  // ---- One snapshot ----

  /** A snapshot is accepted exactly if it names a thread, carries that name and is newer than the cache. */
  lemma {:induction false} AcceptedExactly(s: State, e: Event, t: ThreadId)
    requires e.SnapshotEvent? && t == ThreadId(Trim(e.thread))
    ensures AcceptsSnapshot(s, e) <==> IsNamed(e.thread, t) && Carries(e.raw, t) && Newer(s, t, e.epoch, e.revision)
  {
  }

  /** An accepted snapshot takes the place of whatever was cached: the thread is on its connection at its
      revision or, by waiting sets, a later one; without waiting sets it is the snapshot itself.  Any other
      snapshot changes nothing. */
  lemma {:induction false} SnapshotIsStored(view: Json -> View, s: State, e: Event, gone: seq<ThreadId>, t: ThreadId)
    requires e.SnapshotEvent? && t == ThreadId(Trim(e.thread)) && Allowed(view, s, e, gone)
    ensures var n := Next(view, s, e, gone);
            if IsNamed(e.thread, t) && Carries(e.raw, t) && Newer(s, t, e.epoch, e.revision) then
              && t in n.threads && n.threads[t].threadId == t
              && n.threads[t].epoch == e.epoch && n.threads[t].revision >= e.revision
              && ((t in s.queued ==> forall q :: q in s.queued[t] ==> q.epoch != e.epoch || q.revision <= e.revision) ==>
                    && n.threads[t].revision == e.revision && n.threads[t].raw == e.raw
                    && n.threads[t].view == view(e.raw) && n.threads[t].updatedAt == e.clock(0) && t !in n.queued)
            else n == s
  {
    AcceptedExactly(s, e, t);
    if AcceptsSnapshot(s, e) {
      SparesCurrent(view, s, e, gone);
      AcceptedOutcome(view, s, e, gone);
      if forall q :: q in Queue(s, t) ==> q.epoch != e.epoch || q.revision <= e.revision {
        NothingToReplay(view, s, e);
      }
    }
  }

  lemma {:induction false} AcceptedOutcome(view: Json -> View, s: State, e: Event, gone: seq<ThreadId>)
    requires e.SnapshotEvent? && AcceptsSnapshot(s, e) && Id(e.thread) !in Names(gone)
    ensures var n, t, r := Next(view, s, e, gone), Id(e.thread), Replaying(view, s, e);
            && t in n.threads && n.threads[t] == r.cur && (t in n.queued <==> r.remaining != [])
            && r.cur.threadId == t && r.cur.epoch == e.epoch && r.cur.revision >= e.revision
  {
    ReplayingFacts(view, s, e);
  }

  lemma {:induction false} NothingToReplay(view: Json -> View, s: State, e: Event)
    requires e.SnapshotEvent? && AcceptsSnapshot(s, e)
    requires forall q :: q in Queue(s, Id(e.thread)) ==> q.epoch != e.epoch || q.revision <= e.revision
    ensures var r := Replaying(view, s, e);
            && r.cur.revision == e.revision && r.cur.raw == e.raw && r.cur.view == view(e.raw)
            && r.cur.updatedAt == e.clock(0) && r.remaining == []
  {
    var mid, t := Received(view, s, e), Id(e.thread);
    NothingWaits(view, mid.followUps, mid.threads[t], Queue(mid, t), e.clock, 1);
  }

  lemma {:induction false} NothingWaits(view: Json -> View, fu: map<ThreadId, FollowUps>, cur: Snapshot,
                                       queue: seq<PatchSet>, clock: nat -> int, at: nat)
    requires forall q :: q in queue ==> q.epoch != cur.epoch || q.revision <= cur.revision
    ensures Replay(view, fu, cur, queue, clock, at) == Replayed(cur, [], false)
    decreases |queue|
  {
    if queue != [] {
      NothingWaits(view, fu, cur, queue[1..], clock, at + 1);
    }
  }

  /** Which broadcasts are reported as applied: accepted snapshots, sets that continue the cached thread and apply,
      and accepted follow-ups of the connection that the thread is cached on. */
  lemma {:induction false} AppliedExactly(view: Json -> View, s: State, e: Event, t: ThreadId)
    requires t == ThreadId(Trim(e.thread))
    ensures Applied(view, s, e) <==>
              && IsNamed(e.thread, t)
              && (e.SnapshotEvent? ==> Carries(e.raw, t) && Newer(s, t, e.epoch, e.revision))
              && (e.PatchEvent? ==>
                    && Newer(s, t, e.patchSet.epoch, e.patchSet.revision) && Continues(s, t, e.patchSet)
                    && ApplyAll(s.threads[t].raw, e.patchSet.patches).Some?
                    && Carries(ApplyAll(s.threads[t].raw, e.patchSet.patches).value, t))
              && (e.FollowUpsEvent? ==>
                    && t in s.threads && s.threads[t].epoch == e.followEpoch
                    && (t in s.followUps ==> s.followUps[t].epoch <= e.followEpoch))
  {
    if e.SnapshotEvent? {
      AcceptedExactly(s, e, t);
    }
  }

  ghost predicate SameAt<V(!new)>(a: map<ThreadId, V>, b: map<ThreadId, V>, u: ThreadId) {
    (u in a <==> u in b) && (u in a ==> a[u] == b[u])
  }

  ghost predicate Untouched(s: State, n: State, u: ThreadId) {
    SameAt(s.threads, n.threads, u) && SameAt(s.queued, n.queued, u) && SameAt(s.followUps, n.followUps, u) && SameAt(s.needs, n.needs, u)
  }

  /** A broadcast changes nothing of a thread that it neither names nor evicts. */
  lemma {:induction false} OthersStand(view: Json -> View, s: State, e: Event, gone: seq<ThreadId>, u: ThreadId)
    requires u.text != Trim(e.thread) && u !in gone
    ensures Untouched(s, Next(view, s, e, gone), u)
  {
    match e
    case SnapshotEvent(_, _, _, _, _) => OthersStandSnapshot(view, s, e, gone, u);
    case PatchEvent(_, _, _) => OthersStandPatch(view, s, e, gone, u);
    case FollowUpsEvent(_, _, _, _) =>
      if AcceptsFollowUps(s, e) {
        RememberedOutcome(s, e, gone);
      }
  }

  lemma {:induction false} OthersStandSnapshot(view: Json -> View, s: State, e: Event, gone: seq<ThreadId>, u: ThreadId)
    requires e.SnapshotEvent? && u != Id(e.thread) && u !in gone
    ensures Untouched(s, NextSnapshot(view, s, e, gone), u)
  {
    if AcceptsSnapshot(s, e) {
      InstalledElsewhere(view, s, e, u);
      DroppedElsewhere(Installed(view, s, e), gone, u);
    }
  }

  lemma {:induction false} InstalledElsewhere(view: Json -> View, s: State, e: Event, u: ThreadId)
    requires e.SnapshotEvent? && AcceptsSnapshot(s, e) && u != Id(e.thread)
    ensures Untouched(s, Installed(view, s, e), u)
  {
    ReplayingFacts(view, s, e);
  }

  lemma {:induction false} DroppedElsewhere(s: State, gone: seq<ThreadId>, u: ThreadId)
    requires u !in gone
    ensures Untouched(s, Drop(s, Names(gone)), u)
  {
  }

  lemma {:induction false} OthersStandPatch(view: Json -> View, s: State, e: Event, gone: seq<ThreadId>, u: ThreadId)
    requires e.PatchEvent? && u != Id(e.thread) && u !in gone
    ensures Untouched(s, NextPatch(view, s, e, gone), u)
  {
  }

  /** An evicted thread is forgotten altogether. */
  lemma {:induction false} EvictedIsForgotten(view: Json -> View, s: State, e: Event, gone: seq<ThreadId>, c: ThreadId)
    requires Allowed(view, s, e, gone) && c in gone && !e.FollowUpsEvent?
    ensures var n := Next(view, s, e, gone);
            c !in n.threads && c !in n.queued && c !in n.followUps && c !in n.needs
  {
    assert c in Names(gone);
    match e
    case SnapshotEvent(_, _, _, _, _) => DroppedIsGone(Installed(view, s, e), gone, c);
    case PatchEvent(_, _, _) => DroppedIsGone(Updated(s, Patched(view, s, e).value), gone, c);
  }

  lemma {:induction false} DroppedIsGone(s: State, gone: seq<ThreadId>, c: ThreadId)
    requires c in gone
    ensures var d := Drop(s, Names(gone)); c !in d.threads && c !in d.queued && c !in d.followUps && c !in d.needs
  {
  }

  // ---- Follow-ups ----

  /** Follow-ups that are not older than what is known of their thread are remembered and shown; others change
      nothing. */
  lemma {:induction false} FollowUpsAreRemembered(view: Json -> View, s: State, e: Event, gone: seq<ThreadId>, t: ThreadId)
    requires e.FollowUpsEvent? && t == ThreadId(Trim(e.thread)) && Allowed(view, s, e, gone)
    ensures AcceptsFollowUps(s, e) <==>
              && IsNamed(e.thread, t)
              && (t in s.threads ==> s.threads[t].epoch <= e.followEpoch)
              && (t in s.followUps ==> s.followUps[t].epoch <= e.followEpoch)
    ensures !AcceptsFollowUps(s, e) ==> Next(view, s, e, gone) == s
    ensures AcceptsFollowUps(s, e) ==> Remembered(s, e, t, Next(view, s, e, gone), Names(gone))
  {
    SparesCurrent(view, s, e, gone);
    if AcceptsFollowUps(s, e) {
      RememberedOutcome(s, e, gone);
    }
  }

  /** The follow-ups are remembered with their connection, and shown at once by a thread cached on it; nobody
      else's thread changes, and other follow-ups only by eviction. */
  ghost predicate Remembered(s: State, e: Event, t: ThreadId, n: State, gone: set<ThreadId>)
    requires e.FollowUpsEvent?
  {
    && n.followUps == s.followUps[t := FollowUps(e.followEpoch, e.messages, e.clock(0))] - gone && t !in gone
    && n.queued == s.queued && n.needs == s.needs
    && n.threads == if t in s.threads && s.threads[t].epoch == e.followEpoch
                    then s.threads[t := s.threads[t].(followUps := e.messages, updatedAt := e.clock(1))] else s.threads
  }

  lemma {:induction false} RememberedOutcome(s: State, e: Event, gone: seq<ThreadId>)
    requires e.FollowUpsEvent? && AcceptsFollowUps(s, e)
    ensures var n, t := NextFollowUps(s, e, gone), Id(e.thread);
            && n.followUps == s.followUps[t := FollowUps(e.followEpoch, e.messages, e.clock(0))] - Names(gone)
            && n.queued == s.queued && n.needs == s.needs
            && n.threads == if t in s.threads && s.threads[t].epoch == e.followEpoch
                            then s.threads[t := s.threads[t].(followUps := e.messages, updatedAt := e.clock(1))] else s.threads
  {
  }

  // ---- Eviction ----

  /** A cached thread that is neither the current one nor active nor waiting for the user. */
  predicate Disposable(threads: map<ThreadId, Snapshot>, cur: ThreadId, c: ThreadId) {
    c in threads && c != cur && !threads[c].view.active && !threads[c].view.requests
  }

  /** An eviction pass takes disposable threads, the oldest first. */
  lemma {:induction false} EvictsOldestFirst(threads: map<ThreadId, Snapshot>, cur: ThreadId, gone: seq<ThreadId>)
    requires Shedding(threads, cur, gone)
    ensures forall c :: c in gone ==> Disposable(threads, cur, c)
    ensures forall c, d :: c in gone && Disposable(threads, cur, c) && Disposable(threads, cur, d) && d !in gone ==>
              threads[c].updatedAt <= threads[d].updatedAt
    decreases |gone|
  {
    if gone != [] {
      var n := |gone| - 1;
      EvictsOldestFirst(threads, cur, gone[..n]);
      NextIsOldest(threads, cur, gone[..n], gone[n]);
      forall c | c in gone ensures c in gone[..n] || c == gone[n] {
        LastOrBefore(gone, c);
      }
      forall d | d !in gone ensures d !in gone[..n] {
      }
    }
  }

  /** None is evicted unless more than 512 are cached. */
  lemma {:induction false} EvictsBeyondLimit(threads: map<ThreadId, Snapshot>, cur: ThreadId, gone: seq<ThreadId>)
    requires Shedding(threads, cur, gone) && gone != []
    ensures |threads - Names(gone)| >= 512
  {
    EvictionIsFrugal(threads, cur, gone);
  }

  lemma {:induction false} LastOrBefore(gone: seq<ThreadId>, c: ThreadId)
    requires c in gone
    ensures c in gone[..|gone| - 1] || c == gone[|gone| - 1]
  {
    var i :| 0 <= i < |gone| && gone[i] == c;
    if i < |gone| - 1 {
      assert gone[..|gone| - 1][i] == c;
    }
  }

  lemma {:induction false} NextIsOldest(threads: map<ThreadId, Snapshot>, cur: ThreadId, gone: seq<ThreadId>, c: ThreadId)
    requires Sheds(threads - Names(gone), cur, c)
    ensures Disposable(threads, cur, c)
    ensures forall d :: Disposable(threads, cur, d) && d !in gone ==> threads[c].updatedAt <= threads[d].updatedAt
  {
    var left := threads - Names(gone);
    assert Evictable(left, cur, c);
    forall d | Disposable(threads, cur, d) && d !in gone ensures threads[c].updatedAt <= threads[d].updatedAt {
      assert Evictable(left, cur, d);
    }
  }

  /** Lexicographic order: the first difference decides, and a text stands before its extensions. */
  lemma {:induction false} LessExactly(a: string, b: string)
    ensures Less(a, b) <==> exists n :: 0 <= n <= |a| && Differ(a, b, n)
    decreases |a|
  {
    if a == "" {
      assert b != "" ==> Differ(a, b, 0);
    } else if b != "" {
      if a[0] < b[0] {
        assert Differ(a, b, 0);
      }
      LessExactly(a[1..], b[1..]);
      if a[0] == b[0] {
        if n :| 0 <= n <= |a| - 1 && Differ(a[1..], b[1..], n) {
          assert a[..n + 1] == [a[0]] + a[1..][..n] && b[..n + 1] == [b[0]] + b[1..][..n];
          assert Differ(a, b, n + 1);
        }
        if n :| 0 <= n <= |a| && Differ(a, b, n) {
          assert n > 0;
          assert a[1..][..n - 1] == a[..n][1..] && b[1..][..n - 1] == b[..n][1..];
          assert Differ(a[1..], b[1..], n - 1);
        }
      }
    }
  }

  /** The texts agree up to `n`, where `a` ends or has the smaller character. */
  predicate Differ(a: string, b: string, n: nat)
    requires n <= |a|
  {
    n < |b| && a[..n] == b[..n] && (n == |a| || a[n] < b[n])
  }

  /** Follow-ups other than the current ones without a cached thread. */
  predicate Orphaned(fu: map<ThreadId, FollowUps>, known: set<ThreadId>, cur: ThreadId, c: ThreadId) {
    c in fu && c !in known && c != cur
  }

  /** `a` goes before `b`: it is older, or as old and not behind in lexicographic order. */
  predicate GoesFirst(fu: map<ThreadId, FollowUps>, a: ThreadId, b: ThreadId)
    requires a in fu && b in fu
  {
    fu[a].updatedAt < fu[b].updatedAt || (fu[a].updatedAt == fu[b].updatedAt && !Less(b.text, a.text))
  }

  /** A pass over follow-ups without a cached thread takes the oldest first, ties in lexicographic order, and
      never the current ones. */
  lemma {:induction false} OrphansGoOldestFirst(fu: map<ThreadId, FollowUps>, known: set<ThreadId>, cur: ThreadId, gone: seq<ThreadId>)
    requires SheddingOrphans(fu, known, cur, gone)
    ensures forall c :: c in gone ==> Orphaned(fu, known, cur, c)
    ensures forall c, d :: c in gone && Orphaned(fu, known, cur, c) && Orphaned(fu, known, cur, d) && d !in gone ==> GoesFirst(fu, c, d)
    decreases |gone|
  {
    if gone != [] {
      var n := |gone| - 1;
      OrphansGoOldestFirst(fu, known, cur, gone[..n]);
      NextOrphanIsFirst(fu, known, cur, gone[..n], gone[n]);
      forall c | c in gone ensures c in gone[..n] || c == gone[n] {
        LastOrBefore(gone, c);
      }
      forall d | d !in gone ensures d !in gone[..n] {
      }
    }
  }

  /** None is forgotten unless there are more than 512. */
  lemma {:induction false} OrphansGoBeyondLimit(fu: map<ThreadId, FollowUps>, known: set<ThreadId>, cur: ThreadId, gone: seq<ThreadId>)
    requires SheddingOrphans(fu, known, cur, gone) && gone != []
    ensures |fu.Keys - Names(gone) - known| >= 512
  {
    var n := |gone| - 1;
    NextOrphanIsFirst(fu, known, cur, gone[..n], gone[n]);
    assert gone == gone[..n] + [gone[n]];
    assert fu.Keys - Names(gone) - known == fu.Keys - Names(gone[..n]) - known - {gone[n]};
  }

  lemma {:induction false} NextOrphanIsFirst(fu: map<ThreadId, FollowUps>, known: set<ThreadId>, cur: ThreadId, gone: seq<ThreadId>, c: ThreadId)
    requires ShedsOrphan(fu - Names(gone), known, cur, c)
    ensures Orphaned(fu, known, cur, c)
    ensures forall d :: Orphaned(fu, known, cur, d) && d !in gone ==> GoesFirst(fu, c, d)
    ensures |fu.Keys - Names(gone) - known - {c}| >= 512
  {
    var left := fu - Names(gone);
    var orphans := fu.Keys - Names(gone) - known;
    assert left.Keys - known == orphans;
    assert |orphans| == |orphans - {c}| + 1;
    forall d | Orphaned(fu, known, cur, d) && d !in gone ensures GoesFirst(fu, c, d) {
      assert d in orphans;
      if d == c {
        LessIsStrict(c.text);
      } else {
        assert !OlderOrphan(left, d, c);
      }
    }
  }

  lemma {:induction false} LessIsStrict(a: string)
    ensures !Less(a, a)
  {
    if a != "" {
      LessIsStrict(a[1..]);
    }
  }
}
