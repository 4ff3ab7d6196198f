/** What cached threads show of the queued follow-ups, and when snapshot requests are settled. */
module ReplicaFollowUps {
  import opened Json
  import opened StateReplica
  import opened ReplicaSafety
  import E = StoreEffects

  /** Remembered follow-ups are not older than the cached connection; those of the same connection are what
      the thread shows, and a thread without any shows none. */
  predicate Fits(fu: map<ThreadId, FollowUps>, snap: Snapshot) {
    var t := snap.threadId;
    && (t in fu ==> fu[t].epoch >= snap.epoch)
    && (t in fu && fu[t].epoch == snap.epoch ==> snap.followUps == fu[t].messages)
    && (t !in fu ==> snap.followUps == [])
  }

  ghost predicate AllFit(s: State) {
    forall t :: t in s.threads ==> Fits(s.followUps, s.threads[t])
  }

  lemma {:induction false} ReplayFits(view: Json -> View, fu: map<ThreadId, FollowUps>, cur: Snapshot,
                                     queue: seq<PatchSet>, clock: nat -> int, at: nat)
    requires Fits(fu, cur)
    ensures Fits(fu, Replay(view, fu, cur, queue, clock, at).cur)
    decreases |queue|
  {
    if queue != [] {
      var q := queue[0];
      if Obsolete(cur, q) || q.base != cur.revision {
        ReplayFits(view, fu, cur, queue[1..], clock, at + 1);
      } else {
        match Advance(view, fu, cur, q, clock(at))
        case None =>
        case Some(next) => ReplayFits(view, fu, next, queue[1..], clock, at + 1);
      }
    }
  }

  /** Storing a thread forgets only follow-ups of its own that are too old. */
  lemma {:induction false} UpdateFits(s: State, snap: Snapshot)
    requires WellNamed(s) && AllFit(s) && snap.followUps == []
    ensures AllFit(Updated(s, snap))
  {
    var n := Updated(s, snap);
    forall t | t in n.threads && t != snap.threadId ensures Fits(n.followUps, n.threads[t]) {
      assert Fits(s.followUps, s.threads[t]) && s.threads[t].threadId == t;
    }
  }

  lemma {:induction false} DropFits(s: State, gone: set<ThreadId>)
    requires AllFit(s) && forall t :: t in s.threads ==> s.threads[t].threadId == t
    ensures AllFit(Drop(s, gone))
  {
    var d := Drop(s, gone);
    forall t | t in d.threads ensures Fits(d.followUps, d.threads[t]) {
      assert Fits(s.followUps, s.threads[t]);
    }
  }

  lemma {:induction false} InstalledFits(view: Json -> View, s: State, e: Event)
    requires e.SnapshotEvent? && AcceptsSnapshot(s, e) && WellNamed(s) && AllFit(s)
    ensures AllFit(Installed(view, s, e)) && forall t :: t in Installed(view, s, e).threads ==> Installed(view, s, e).threads[t].threadId == t
  {
    var t, m := Id(e.thread), Received(view, s, e);
    UpdateFits(s, Build(view, t, e.epoch, e.revision, e.raw, e.clock(0)));
    ReplayFits(view, m.followUps, m.threads[t], Queue(m, t), e.clock, 1);
    ReplayingFacts(view, s, e);
    var i := Installed(view, s, e);
    forall u | u in i.threads ensures Fits(i.followUps, i.threads[u]) && i.threads[u].threadId == u {
      assert Fits(m.followUps, m.threads[u]);
    }
  }

  lemma {:induction false} SnapshotFits(view: Json -> View, s: State, e: Event, gone: seq<ThreadId>)
    requires e.SnapshotEvent? && WellNamed(s) && AllFit(s)
    ensures AllFit(NextSnapshot(view, s, e, gone))
  {
    if AcceptsSnapshot(s, e) {
      InstalledFits(view, s, e);
      DropFits(Installed(view, s, e), Names(gone));
    }
  }

  lemma {:induction false} PatchFits(view: Json -> View, s: State, e: Event, gone: seq<ThreadId>)
    requires e.PatchEvent? && WellNamed(s) && AllFit(s)
    ensures AllFit(NextPatch(view, s, e, gone))
  {
    var p := Patched(view, s, e);
    if p.Some? {
      UpdateFits(s, p.value);
      DropFits(Updated(s, p.value), Names(gone));
    }
  }

  /** An orphan pass removes only follow-ups without a cached thread. */
  lemma {:induction false} OrphansHaveNoThread(fu: map<ThreadId, FollowUps>, known: set<ThreadId>, cur: ThreadId, gone: seq<ThreadId>)
    requires SheddingOrphans(fu, known, cur, gone)
    ensures Names(gone) !! known
    decreases |gone|
  {
    if gone != [] {
      var n := |gone| - 1;
      OrphansHaveNoThread(fu, known, cur, gone[..n]);
      NextOrphanHasNoThread(fu - Names(gone[..n]), known, cur, gone[n]);
      assert gone == gone[..n] + [gone[n]];
    }
  }

  lemma {:induction false} NextOrphanHasNoThread(fu: map<ThreadId, FollowUps>, known: set<ThreadId>, cur: ThreadId, c: ThreadId)
    requires ShedsOrphan(fu, known, cur, c)
    ensures c !in known
  {
  }

  lemma {:induction false} OthersStillFit(s: State, e: Event, gone: seq<ThreadId>, t: ThreadId)
    requires e.FollowUpsEvent? && AcceptsFollowUps(s, e) && Names(gone) !! s.threads.Keys
    requires t in s.threads && t != Id(e.thread) && s.threads[t].threadId == t && Fits(s.followUps, s.threads[t])
    ensures var n := NextFollowUps(s, e, gone); t in n.threads && Fits(n.followUps, n.threads[t])
  {
  }

  lemma {:induction false} NamedFits(s: State, e: Event, gone: seq<ThreadId>, t: ThreadId)
    requires e.FollowUpsEvent? && AcceptsFollowUps(s, e) && Names(gone) !! s.threads.Keys
    requires t in s.threads && t == Id(e.thread) && s.threads[t].threadId == t
    ensures var n := NextFollowUps(s, e, gone); t in n.threads && Fits(n.followUps, n.threads[t])
  {
  }

  lemma {:induction false} FollowUpsFit(s: State, e: Event, gone: seq<ThreadId>)
    requires e.FollowUpsEvent? && WellNamed(s) && AllFit(s) && Names(gone) !! s.threads.Keys
    ensures AllFit(NextFollowUps(s, e, gone))
  {
    if AcceptsFollowUps(s, e) {
      var n := NextFollowUps(s, e, gone);
      assert n.threads.Keys == s.threads.Keys;
      forall t | t in n.threads ensures Fits(n.followUps, n.threads[t]) {
        if t == Id(e.thread) {
          NamedFits(s, e, gone, t);
        } else {
          OthersStillFit(s, e, gone, t);
        }
      }
    }
  }

  lemma {:induction false} StepFits(view: Json -> View, s: State, e: Event, gone: seq<ThreadId>)
    requires WellNamed(s) && AllFit(s) && Allowed(view, s, e, gone)
    ensures AllFit(Next(view, s, e, gone))
  {
    match e
    case SnapshotEvent(_, _, _, _, _) => SnapshotFits(view, s, e, gone);
    case PatchEvent(_, _, _) => PatchFits(view, s, e, gone);
    case FollowUpsEvent(_, _, _, _) =>
      if gone != [] {
        OrphansHaveNoThread(Noted(s, e).followUps, s.threads.Keys, Id(e.thread), gone);
      }
      FollowUpsFit(s, e, gone);
  }

  /** In every run each cached thread shows exactly the follow-ups that are remembered of its own connection, and
      none if none are remembered.  While those of a newer connection are remembered it may still show older
      ones, until it is rebuilt. */
  lemma {:induction false} RunFits(view: Json -> View, states: seq<State>, moves: seq<Move>, n: nat)
    requires Run(view, states, moves) && n <= |moves|
    ensures AllFit(states[n])
    decreases n
  {
    if n > 0 {
      var m := n - 1;
      RunFits(view, states, moves, m);
      RunIsSound(view, states, moves, m);
      assert Links(view, states, moves, m) && Permits(view, states, moves, m);
      StepFits(view, states[m], moves[m].event, moves[m].gone);
    }
  }

  /** What a thread of this connection is to show. */
  function Shows(fu: map<ThreadId, FollowUps>, t: ThreadId, epoch: nat): seq<string> {
    if t in fu && fu[t].epoch == epoch then fu[t].messages else []
  }

  lemma {:induction false} ReplayShows(view: Json -> View, fu: map<ThreadId, FollowUps>, cur: Snapshot,
                                      queue: seq<PatchSet>, clock: nat -> int, at: nat)
    requires cur.followUps == Shows(fu, cur.threadId, cur.epoch)
    ensures var r := Replay(view, fu, cur, queue, clock, at).cur;
            r.threadId == cur.threadId && r.epoch == cur.epoch && r.followUps == Shows(fu, cur.threadId, cur.epoch)
    decreases |queue|
  {
    if queue != [] {
      var q := queue[0];
      if Obsolete(cur, q) || q.base != cur.revision {
        ReplayShows(view, fu, cur, queue[1..], clock, at + 1);
      } else {
        match Advance(view, fu, cur, q, clock(at))
        case None =>
        case Some(next) => ReplayShows(view, fu, next, queue[1..], clock, at + 1);
      }
    }
  }

  lemma {:induction false} SnapshotShows(view: Json -> View, s: State, e: Event, gone: seq<ThreadId>)
    requires e.SnapshotEvent? && AcceptsSnapshot(s, e) && Id(e.thread) !in Names(gone)
    ensures var t, n := Id(e.thread), Next(view, s, e, gone);
            t in n.threads && n.threads[t].followUps == Shows(n.followUps, t, n.threads[t].epoch)
  {
    var t, m := Id(e.thread), Received(view, s, e);
    ReplayShows(view, m.followUps, m.threads[t], Queue(m, t), e.clock, 1);
    var n := Next(view, s, e, gone);
    assert n.threads[t] == Replaying(view, s, e).cur && n.followUps == m.followUps - Names(gone);
  }

  lemma {:induction false} PatchShows(view: Json -> View, s: State, e: Event, gone: seq<ThreadId>)
    requires e.PatchEvent? && Patched(view, s, e).Some? && Id(e.thread) !in Names(gone)
    ensures var t, n := Id(e.thread), Next(view, s, e, gone);
            t in n.threads && n.threads[t].followUps == Shows(n.followUps, t, n.threads[t].epoch)
  {
    var t, n := Id(e.thread), Updated(s, Patched(view, s, e).value);
    assert n.threads[t].followUps == Shows(n.followUps, t, n.threads[t].epoch);
    assert Next(view, s, e, gone) == Drop(n, Names(gone));
  }

  lemma {:induction false} FollowUpsShow(view: Json -> View, s: State, e: Event, gone: seq<ThreadId>)
    requires e.FollowUpsEvent? && Applied(view, s, e) && Id(e.thread) !in Names(gone)
    ensures var t, n := Id(e.thread), Next(view, s, e, gone);
            t in n.threads && n.threads[t].followUps == Shows(n.followUps, t, n.threads[t].epoch)
  {
  }

  /** A thread that an update rebuilds shows exactly the remembered follow-ups of its own connection. */
  lemma {:induction false} RebuiltShowsExactly(view: Json -> View, s: State, e: Event, gone: seq<ThreadId>)
    requires Allowed(view, s, e, gone) && Applied(view, s, e)
    ensures var t, n := Id(e.thread), Next(view, s, e, gone);
            t in n.threads && n.threads[t].followUps == Shows(n.followUps, t, n.threads[t].epoch)
  {
    SparesCurrent(view, s, e, gone);
    match e
    case SnapshotEvent(_, _, _, _, _) => SnapshotShows(view, s, e, gone);
    case PatchEvent(_, _, _) => PatchShows(view, s, e, gone);
    case FollowUpsEvent(_, _, _, _) => FollowUpsShow(view, s, e, gone);
  }

  /** After an accepted snapshot a request for its thread is outstanding exactly if its target is still
      ahead of what replay reached; requests for other cached threads are left alone. */
  lemma {:induction false} SnapshotSettles(view: Json -> View, s: State, e: Event, gone: seq<ThreadId>)
    requires e.SnapshotEvent? && AcceptsSnapshot(s, e) && Allowed(view, s, e, gone)
    ensures var t, n := Id(e.thread), Next(view, s, e, gone);
            && t in n.threads
            && (t in n.needs <==> t in s.needs && s.needs[t] > n.threads[t].revision)
            && (forall u :: u != t && u in n.threads ==> (u in n.needs <==> u in s.needs))
            && (forall u :: u in n.needs ==> u in s.needs && n.needs[u] == s.needs[u])
  {
    SparesCurrent(view, s, e, gone);
    ReplayingFacts(view, s, e);
  }

  // ---- How long follow-ups are remembered ----

  /** An update forgets the follow-ups of its thread exactly if they belong to an older connection than the thread
      is then cached on, and otherwise leaves them as they were; the thread shows those of its own connection. */
  lemma {:induction false} UpdateRemembersExactly(view: Json -> View, s: State, e: Event, gone: seq<ThreadId>)
    requires Allowed(view, s, e, gone) && Applied(view, s, e) && !e.FollowUpsEvent?
    ensures var t, n := Id(e.thread), Next(view, s, e, gone);
            && t in n.threads
            && (t in n.followUps <==> t in s.followUps && s.followUps[t].epoch >= n.threads[t].epoch)
            && (t in n.followUps ==> n.followUps[t] == s.followUps[t])
            && n.threads[t].followUps ==
                 if t in s.followUps && s.followUps[t].epoch == n.threads[t].epoch then s.followUps[t].messages else []
  {
    SparesCurrent(view, s, e, gone);
    RebuiltShowsExactly(view, s, e, gone);
    if e.SnapshotEvent? {
      ReplayingFacts(view, s, e);
    }
  }

  predicate Remembers(s: State, t: ThreadId, f: FollowUps) {
    t in s.followUps && s.followUps[t] == f
  }

  /** What ends a memory of follow-ups: eviction, follow-ups accepted in their place, or the thread on a later
      connection. */
  predicate Forgets(s: State, m: Move, n: State, t: ThreadId, f: FollowUps) {
    || t in m.gone
    || (m.event.FollowUpsEvent? && AcceptsFollowUps(s, m.event) && Id(m.event.thread) == t)
    || (t in n.threads && n.threads[t].epoch > f.epoch)
  }

  lemma {:induction false} StepRemembers(view: Json -> View, s: State, m: Move, t: ThreadId, f: FollowUps)
    requires Allowed(view, s, m.event, m.gone) && Remembers(s, t, f)
    ensures var n := Next(view, s, m.event, m.gone); Remembers(n, t, f) || Forgets(s, m, n, t, f)
  {
    var e, n := m.event, Next(view, s, m.event, m.gone);
    if Id(e.thread) != t && t !in m.gone {
      E.OthersStand(view, s, e, m.gone, t);
      assert E.SameAt(s.followUps, n.followUps, t);
    } else if Id(e.thread) == t && e.FollowUpsEvent? {
      E.FollowUpsAreRemembered(view, s, e, m.gone, t);
    } else if Id(e.thread) == t && Applied(view, s, e) {
      UpdateRemembersExactly(view, s, e, m.gone);
    } else if Id(e.thread) == t {
      UnappliedRemembers(view, s, e, m.gone);
    }
  }

  lemma {:induction false} UnappliedRemembers(view: Json -> View, s: State, e: Event, gone: seq<ThreadId>)
    requires !Applied(view, s, e) && !e.FollowUpsEvent?
    ensures Next(view, s, e, gone).followUps == s.followUps
  {
  }

  /** With broadcast `k` the follow-ups are forgotten. */
  predicate Ends(states: seq<State>, moves: seq<Move>, k: nat, t: ThreadId, f: FollowUps)
    requires k < |moves| == |states| - 1
  {
    Forgets(states[k], moves[k], states[k + 1], t, f)
  }

  /** Main theorem: in every run remembered follow-ups stay until they are evicted or replaced, or their thread is
      cached on a later connection. */
  lemma {:induction false} RunRemembers(view: Json -> View, states: seq<State>, moves: seq<Move>, a: nat, n: nat, t: ThreadId, f: FollowUps)
    requires Run(view, states, moves) && a <= n <= |moves| && Remembers(states[a], t, f)
    ensures Remembers(states[n], t, f) || exists k :: a <= k < n && Ends(states, moves, k, t, f)
    decreases n
  {
    if a < n {
      var k := n - 1;
      RunRemembers(view, states, moves, a, k, t, f);
      assert Links(view, states, moves, k) && Permits(view, states, moves, k);
      if Remembers(states[k], t, f) {
        StepRemembers(view, states[k], moves[k], t, f);
        assert Remembers(states[n], t, f) || Ends(states, moves, k, t, f);
      }
    }
  }
}
