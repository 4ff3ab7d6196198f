/** The projection inside the state store: each state that the store builds for a thread is projected from the
    memory of the one before, within one connection epoch (agent/codex_desktop_state.go,
    agent/codex_desktop_state_queue.go).  `project` stands for the projection of a conversation state from a
    memory; the last part puts the projection of `Projection` in its place. */
module ReplicaProjection {
  import opened Json
  import opened StateReplica
  import opened ReplicaSafety
  import P = Projection
  import C = ProjectionChains

  type Projector = (Option<P.Memory>, Json) -> (P.Memory, seq<P.Event>)

  // ---- What one broadcast builds ----

  /** The states that a replay builds, one after the other. */
  function Replays(view: Json -> View, fu: map<ThreadId, FollowUps>, cur: Snapshot, queue: seq<PatchSet>,
                   clock: nat -> int, at: nat): (raws: seq<Json>)
    decreases |queue|
  {
    if queue == [] then []
    else if Obsolete(cur, queue[0]) || queue[0].base != cur.revision then Replays(view, fu, cur, queue[1..], clock, at + 1)
    else
      match Advance(view, fu, cur, queue[0], clock(at))
      case None => []
      case Some(next) => [next.raw] + Replays(view, fu, next, queue[1..], clock, at + 1)
  }

  lemma {:induction false} ReplayEndsAtLast(view: Json -> View, fu: map<ThreadId, FollowUps>, cur: Snapshot, queue: seq<PatchSet>,
                                           clock: nat -> int, at: nat)
    ensures var raws := [cur.raw] + Replays(view, fu, cur, queue, clock, at);
            Replay(view, fu, cur, queue, clock, at).cur.raw == raws[|raws| - 1]
    decreases |queue|
  {
    if queue != [] {
      var q := queue[0];
      if Obsolete(cur, q) || q.base != cur.revision {
        ReplayEndsAtLast(view, fu, cur, queue[1..], clock, at + 1);
      } else if Advance(view, fu, cur, q, clock(at)).Some? {
        ReplayEndsAtLast(view, fu, Advance(view, fu, cur, q, clock(at)).value, queue[1..], clock, at + 1);
      }
    }
  }

  /** The states that a broadcast builds for its thread. */
  function Built(view: Json -> View, s: State, e: Event): (raws: seq<Json>) {
    match e
    case SnapshotEvent(_, _, _, _, _) =>
      if !AcceptsSnapshot(s, e) then []
      else
        var t, m := Id(e.thread), Received(view, s, e);
        [e.raw] + Replays(view, m.followUps, m.threads[t], Queue(m, t), e.clock, 1)
    case PatchEvent(_, _, _) =>
      var p := Patched(view, s, e);
      if p.Some? then [p.value.raw] else []
    case FollowUpsEvent(_, _, _, _) => []
  }

  type Memories = map<ThreadId, P.Memory>

  /** The memory that the first of them is projected from: that of the cached thread if its connection is
      still the same. */
  function Previous(s: State, memories: Memories, e: Event): Option<P.Memory> {
    var t := Id(e.thread);
    if t in s.threads && t in memories && (e.SnapshotEvent? ==> s.threads[t].epoch == e.epoch) then Some(memories[t]) else None
  }

  datatype Told = Told(memory: Option<P.Memory>, events: seq<seq<P.Event>>)

  /** Projects states one after the other. */
  function Tell(project: Projector, previous: Option<P.Memory>, raws: seq<Json>): (r: Told)
    ensures |r.events| == |raws| && (raws != [] ==> r.memory.Some?)
  {
    if raws == [] then Told(previous, [])
    else
      var n := |raws| - 1;
      var r := Tell(project, previous, raws[..n]);
      var (memory, events) := project(r.memory, raws[n]);
      Told(Some(memory), r.events + [events])
  }

  function TellStep(view: Json -> View, project: Projector, s: State, memories: Memories, e: Event): Told {
    Tell(project, Previous(s, memories, e), Built(view, s, e))
  }

  function NextMemories(view: Json -> View, project: Projector, s: State, memories: Memories, m: Move): Memories {
    (if Built(view, s, m.event) == [] then memories
     else memories[Id(m.event.thread) := TellStep(view, project, s, memories, m.event).memory.value]) - Evicted(m)
  }

  // ---- The memory mirrors the cache ----

  /** The memory is a projection of the state. */
  ghost predicate Reflects(project: Projector, memory: P.Memory, raw: Json) {
    exists previous: Option<P.Memory> :: project(previous, raw).0 == memory
  }

  /** Every cached thread has a memory, and it is one of exactly the state that is cached. */
  ghost predicate Mirrors(project: Projector, s: State, memories: Memories) {
    && memories.Keys == s.threads.Keys
    && forall t :: t in memories ==> Reflects(project, memories[t], s.threads[t].raw)
  }

  lemma {:induction false} TellEnds(project: Projector, previous: Option<P.Memory>, raws: seq<Json>)
    requires raws != []
    ensures Reflects(project, Tell(project, previous, raws).memory.value, raws[|raws| - 1])
  {
    var n := |raws| - 1;
    assert project(Tell(project, previous, raws[..n]).memory, raws[n]).0 == Tell(project, previous, raws).memory.value;
  }

  /** What a broadcast about `t` that builds `raws` and evicts `gone` does to the cached threads. */
  ghost predicate Effect(s: State, n: State, t: ThreadId, raws: seq<Json>, gone: set<ThreadId>) {
    && n.threads.Keys == (if raws == [] then s.threads.Keys else s.threads.Keys + {t}) - gone
    && (raws != [] ==> t in n.threads && n.threads[t].raw == raws[|raws| - 1])
    && (forall u :: u in n.threads && (u != t || raws == []) ==>
          u in s.threads && n.threads[u].raw == s.threads[u].raw && n.threads[u].epoch == s.threads[u].epoch)
  }

  lemma {:induction false} NothingHappens(s: State, t: ThreadId)
    ensures Effect(s, s, t, [], Names([]))
  {
    assert Names([]) == {};
  }

  lemma {:induction false} InstalledBuilds(view: Json -> View, s: State, e: Event)
    requires e.SnapshotEvent? && AcceptsSnapshot(s, e)
    ensures var t, i, raws := Id(e.thread), Installed(view, s, e), Built(view, s, e);
            && i.threads == s.threads[t := i.threads[t]] && i.threads[t].epoch == e.epoch
            && raws != [] && i.threads[t].raw == raws[|raws| - 1]
  {
    var t, m := Id(e.thread), Received(view, s, e);
    ReplayingFacts(view, s, e);
    ReplayEndsAtLast(view, m.followUps, m.threads[t], Queue(m, t), e.clock, 1);
  }

  lemma {:induction false} SnapshotBuilds(view: Json -> View, s: State, e: Event, gone: seq<ThreadId>)
    requires e.SnapshotEvent? && AcceptsSnapshot(s, e) && Id(e.thread) !in Names(gone)
    ensures Effect(s, Next(view, s, e, gone), Id(e.thread), Built(view, s, e), Names(gone))
    ensures Id(e.thread) in Next(view, s, e, gone).threads && Next(view, s, e, gone).threads[Id(e.thread)].epoch == e.epoch
  {
    InstalledBuilds(view, s, e);
    assert Next(view, s, e, gone).threads == Installed(view, s, e).threads - Names(gone);
  }

  lemma {:induction false} PatchBuilds(view: Json -> View, s: State, e: Event, gone: seq<ThreadId>)
    requires e.PatchEvent? && Patched(view, s, e).Some? && Id(e.thread) !in Names(gone)
    ensures Effect(s, Next(view, s, e, gone), Id(e.thread), Built(view, s, e), Names(gone))
    ensures var t := Id(e.thread); t in s.threads && t in Next(view, s, e, gone).threads && Next(view, s, e, gone).threads[t].epoch == s.threads[t].epoch
  {
    var p := Patched(view, s, e).value;
    assert Next(view, s, e, gone).threads == Updated(s, p).threads - Names(gone);
    assert Updated(s, p).threads == s.threads[Id(e.thread) := Updated(s, p).threads[Id(e.thread)]];
  }

  lemma {:induction false} FollowUpsBuild(view: Json -> View, s: State, e: Event, gone: seq<ThreadId>)
    requires e.FollowUpsEvent?
    ensures Effect(s, Next(view, s, e, gone), Id(e.thread), Built(view, s, e), {})
  {
    FollowUpsOnly(s, e, gone);
  }

  lemma {:induction false} StepBuilds(view: Json -> View, s: State, m: Move)
    requires Allowed(view, s, m.event, m.gone)
    ensures Effect(s, Next(view, s, m.event, m.gone), Id(m.event.thread), Built(view, s, m.event), Evicted(m))
    ensures Id(m.event.thread) !in Evicted(m)
  {
    var e, gone := m.event, m.gone;
    SparesCurrent(view, s, e, gone);
    match e
    case SnapshotEvent(_, _, _, _, _) =>
      if AcceptsSnapshot(s, e) {
        SnapshotBuilds(view, s, e, gone);
      } else {
        NothingHappens(s, Id(e.thread));
      }
    case PatchEvent(_, _, _) =>
      if Patched(view, s, e).Some? {
        PatchBuilds(view, s, e, gone);
      } else {
        UnpatchedKeeps(view, s, e);
      }
    case FollowUpsEvent(_, _, _, _) => FollowUpsBuild(view, s, e, gone);
  }

  lemma {:induction false} UnpatchedKeeps(view: Json -> View, s: State, e: Event)
    requires e.PatchEvent? && Patched(view, s, e).None?
    ensures Effect(s, Next(view, s, e, []), Id(e.thread), Built(view, s, e), Names([]))
  {
    assert Names([]) == {};
    assert Next(view, s, e, []).threads == s.threads;
  }

  /** Projecting what was built keeps the mirror. */
  lemma {:induction false} MirrorKept(project: Projector, s: State, n: State, t: ThreadId, raws: seq<Json>, gone: set<ThreadId>,
                                     memories: Memories, told: Option<P.Memory>, next: Memories)
    requires Mirrors(project, s, memories) && Effect(s, n, t, raws, gone) && t !in gone
    requires raws != [] ==> told.Some? && Reflects(project, told.value, raws[|raws| - 1])
    requires next == (if raws == [] then memories else memories[t := told.value]) - gone
    ensures Mirrors(project, n, next)
  {
    forall u | u in next ensures Reflects(project, next[u], n.threads[u].raw) {
      if u != t || raws == [] {
        assert u in memories && n.threads[u].raw == s.threads[u].raw;
      }
    }
  }

  lemma {:induction false} StepMirrors(view: Json -> View, project: Projector, s: State, memories: Memories, m: Move)
    requires Mirrors(project, s, memories) && Allowed(view, s, m.event, m.gone)
    ensures Mirrors(project, Next(view, s, m.event, m.gone), NextMemories(view, project, s, memories, m))
  {
    var raws := Built(view, s, m.event);
    StepBuilds(view, s, m);
    if raws != [] {
      TellEnds(project, Previous(s, memories, m.event), raws);
    }
    MirrorKept(project, s, Next(view, s, m.event, m.gone), Id(m.event.thread), raws, Evicted(m), memories,
               TellStep(view, project, s, memories, m.event).memory, NextMemories(view, project, s, memories, m));
  }

  // ---- Runs ----

  ghost predicate FullRun(view: Json -> View, project: Projector, states: seq<State>, memories: seq<Memories>, moves: seq<Move>) {
    && Run(view, states, moves) && |memories| == |states| && memories[0] == map[]
    && forall i :: 0 <= i < |moves| ==> Remembers(view, project, states, memories, moves, i)
  }

  ghost predicate Remembers(view: Json -> View, project: Projector, states: seq<State>, memories: seq<Memories>, moves: seq<Move>, i: nat)
    requires i < |moves| == |states| - 1 && |memories| == |states|
  {
    memories[i + 1] == NextMemories(view, project, states[i], memories[i], moves[i])
  }

  /** In every run each cached thread has the projection memory of exactly the state that is cached. */
  lemma {:induction false} RunMirrors(view: Json -> View, project: Projector, states: seq<State>, memories: seq<Memories>, moves: seq<Move>, n: nat)
    requires FullRun(view, project, states, memories, moves) && n <= |moves|
    ensures Mirrors(project, states[n], memories[n])
    decreases n
  {
    if n > 0 {
      var m := n - 1;
      RunMirrors(view, project, states, memories, moves, m);
      assert Links(view, states, moves, m) && Permits(view, states, moves, m);
      assert Remembers(view, project, states, memories, moves, m);
      StepMirrors(view, project, states[m], memories[m], moves[m]);
    }
  }

  // ---- A session of one thread is a chain of projections ----

  /** Broadcast `a` starts the thread, anew or on another connection, and up to broadcast `b` it stays cached on
      that connection. */
  ghost predicate Session(states: seq<State>, moves: seq<Move>, a: nat, b: nat, t: ThreadId)
    requires a < b <= |moves| == |states| - 1
  {
    && Id(moves[a].event.thread) == t && t in states[a + 1].threads
    && (forall n :: a < n <= b ==> t in states[n].threads && states[n].threads[t].epoch == states[a + 1].threads[t].epoch)
    && (t in states[a].threads ==> states[a].threads[t].epoch != states[a + 1].threads[t].epoch)
  }

  /** The states built for the thread by the broadcasts from `a` to `b`. */
  function Revisions(view: Json -> View, states: seq<State>, moves: seq<Move>, a: nat, b: nat, t: ThreadId): (raws: seq<Json>)
    requires a <= b <= |moves| == |states| - 1
    decreases b
  {
    if a == b then []
    else Revisions(view, states, moves, a, b - 1, t) +
         if Id(moves[b - 1].event.thread) == t then Built(view, states[b - 1], moves[b - 1].event) else []
  }

  /** The events published for it. */
  function Published(view: Json -> View, project: Projector, states: seq<State>, memories: seq<Memories>, moves: seq<Move>, a: nat, b: nat, t: ThreadId)
    : (events: seq<seq<P.Event>>)
    requires a <= b <= |moves| == |states| - 1 && |memories| == |states|
    decreases b
  {
    if a == b then []
    else Published(view, project, states, memories, moves, a, b - 1, t) +
         if Id(moves[b - 1].event.thread) == t then TellStep(view, project, states[b - 1], memories[b - 1], moves[b - 1].event).events else []
  }

  /** A thread is projected afresh exactly when it was not cached or comes on another connection. */
  lemma {:induction false} FreshExactly(view: Json -> View, s: State, memories: Memories, m: Move)
    requires Allowed(view, s, m.event, m.gone) && memories.Keys == s.threads.Keys && Built(view, s, m.event) != []
    ensures var t, n := Id(m.event.thread), Next(view, s, m.event, m.gone);
            && t in n.threads
            && Previous(s, memories, m.event) ==
                 if t in s.threads && s.threads[t].epoch == n.threads[t].epoch then Some(memories[t]) else None
  {
    var e, gone := m.event, m.gone;
    SparesCurrent(view, s, e, gone);
    if e.SnapshotEvent? {
      SnapshotBuilds(view, s, e, gone);
    } else {
      PatchBuilds(view, s, e, gone);
    }
  }

  /** What a broadcast tells about a thread that is cached afterwards: the projections of what it built,
      continued from the thread's memory on the same connection; or nothing, and the memory stays. */
  ghost predicate Tells(project: Projector, s: State, memories: Memories, n: State, next: Memories, t: ThreadId, raws: seq<Json>, told: Told)
    requires t in n.threads
  {
    && t in next
    && (raws != [] ==>
          var previous := if t in s.threads && t in memories && s.threads[t].epoch == n.threads[t].epoch then Some(memories[t]) else None;
          told == Tell(project, previous, raws) && told.memory == Some(next[t]))
    && (raws == [] ==>
          t in s.threads && t in memories && s.threads[t].epoch == n.threads[t].epoch && next[t] == memories[t] && told.events == [])
  }

  lemma {:induction false} NewsTells(view: Json -> View, project: Projector, s: State, memories: Memories, m: Move, t: ThreadId)
    requires Mirrors(project, s, memories) && Allowed(view, s, m.event, m.gone) && t in Next(view, s, m.event, m.gone).threads
    requires Id(m.event.thread) == t && Built(view, s, m.event) != []
    ensures Tells(project, s, memories, Next(view, s, m.event, m.gone), NextMemories(view, project, s, memories, m), t,
                  Built(view, s, m.event), TellStep(view, project, s, memories, m.event))
  {
    StepBuilds(view, s, m);
    FreshExactly(view, s, memories, m);
  }

  lemma {:induction false} NoNewsTells(view: Json -> View, project: Projector, s: State, memories: Memories, m: Move, t: ThreadId, told: Told)
    requires Mirrors(project, s, memories) && Allowed(view, s, m.event, m.gone) && t in Next(view, s, m.event, m.gone).threads
    requires (Id(m.event.thread) != t || Built(view, s, m.event) == []) && told.events == []
    ensures Tells(project, s, memories, Next(view, s, m.event, m.gone), NextMemories(view, project, s, memories, m), t, [], told)
  {
    StepBuilds(view, s, m);
    var n := Next(view, s, m.event, m.gone);
    assert t in s.threads && n.threads[t].epoch == s.threads[t].epoch && t !in Evicted(m);
  }

  /** The same for broadcast `k` of a run. */
  lemma {:induction false} RunTells(view: Json -> View, project: Projector, states: seq<State>, memories: seq<Memories>, moves: seq<Move>, a: nat, k: nat, t: ThreadId)
    returns (more: seq<Json>, told: Told)
    requires FullRun(view, project, states, memories, moves) && a <= k < |moves| && t in states[k + 1].threads
    ensures Tells(project, states[k], memories[k], states[k + 1], memories[k + 1], t, more, told)
    ensures Revisions(view, states, moves, a, k + 1, t) == Revisions(view, states, moves, a, k, t) + more
    ensures Published(view, project, states, memories, moves, a, k + 1, t) == Published(view, project, states, memories, moves, a, k, t) + told.events
  {
    var s, m := states[k], moves[k];
    RunMirrors(view, project, states, memories, moves, k);
    assert Links(view, states, moves, k) && Permits(view, states, moves, k) && Remembers(view, project, states, memories, moves, k);
    if Id(m.event.thread) == t {
      more, told := Built(view, s, m.event), TellStep(view, project, s, memories[k], m.event);
    } else {
      more, told := [], Told(None, []);
    }
    if more != [] {
      NewsTells(view, project, s, memories[k], m, t);
    } else {
      NoNewsTells(view, project, s, memories[k], m, t, told);
    }
  }

  /** Telling more continues from the memory. */
  lemma {:induction false} TellConcat(project: Projector, previous: Option<P.Memory>, raws: seq<Json>, more: seq<Json>)
    ensures var r := Tell(project, previous, raws);
            var m := Tell(project, r.memory, more);
            Tell(project, previous, raws + more) == Told(m.memory, r.events + m.events)
    decreases |more|
  {
    if more == [] {
      assert raws + more == raws;
    } else {
      var n := |more| - 1;
      TellConcat(project, previous, raws, more[..n]);
      assert (raws + more)[..|raws| + n] == raws + more[..n];
    }
  }

  /** In a session the thread's memory and the published events are those of telling everything that was built
      from the start. */
  lemma {:induction false} SessionTells(view: Json -> View, project: Projector, states: seq<State>, memories: seq<Memories>, moves: seq<Move>, a: nat, b: nat, t: ThreadId)
    requires FullRun(view, project, states, memories, moves) && a < b <= |moves| && Session(states, moves, a, b, t)
    ensures t in memories[b]
    ensures Tell(project, None, Revisions(view, states, moves, a, b, t))
            == Told(Some(memories[b][t]), Published(view, project, states, memories, moves, a, b, t))
    decreases b
  {
    var k := b - 1;
    assert t in states[k + 1].threads && states[k + 1].threads[t].epoch == states[a + 1].threads[t].epoch;
    var more, told := RunTells(view, project, states, memories, moves, a, k, t);
    if k == a {
      StartTells(project, states[a], memories[a], states[b], memories[b], t, more, told);
    } else {
      SessionTells(view, project, states, memories, moves, a, k, t);
      assert t in states[k].threads && states[k].threads[t].epoch == states[a + 1].threads[t].epoch;
      NextTells(project, states[k], memories[k], states[b], memories[b], t, Revisions(view, states, moves, a, k, t),
                Published(view, project, states, memories, moves, a, k, t), more, told);
    }
  }

  lemma {:induction false} StartTells(project: Projector, s: State, memories: Memories, n: State, next: Memories, t: ThreadId, more: seq<Json>, told: Told)
    requires t in n.threads && Tells(project, s, memories, n, next, t, more, told)
    requires t in s.threads ==> s.threads[t].epoch != n.threads[t].epoch
    ensures t in next && Tell(project, None, [] + more) == Told(Some(next[t]), [] + told.events)
  {
    assert [] + more == more && [] + told.events == told.events;
  }

  lemma {:induction false} NextTells(project: Projector, s: State, memories: Memories, n: State, next: Memories, t: ThreadId,
                                    raws: seq<Json>, events: seq<seq<P.Event>>, more: seq<Json>, told: Told)
    requires t in n.threads && Tells(project, s, memories, n, next, t, more, told)
    requires t in s.threads && t in memories && s.threads[t].epoch == n.threads[t].epoch
    requires Tell(project, None, raws) == Told(Some(memories[t]), events)
    ensures t in next && Tell(project, None, raws + more) == Told(Some(next[t]), events + told.events)
  {
    if more == [] {
      assert raws + more == raws && events + told.events == events;
    } else {
      TellConcat(project, None, raws, more);
    }
  }

  // ---- Telling is a chain ----

  /** The memory after each state. */
  function Marks(project: Projector, raws: seq<Json>): (memories: seq<P.Memory>)
    ensures |memories| == |raws|
  {
    seq(|raws|, i requires 0 <= i < |raws| => Tell(project, None, raws[..i + 1]).memory.value)
  }

  lemma {:induction false} TellLinks(project: Projector, raws: seq<Json>, n: nat)
    requires n < |raws|
    ensures var before := Tell(project, None, raws[..n]).memory;
            && before == C.Before(Marks(project, raws), n)
            && (Marks(project, raws)[n], Tell(project, None, raws).events[n]) == project(before, raws[n])
  {
    assert raws[..n + 1][..n] == raws[..n];
    assert raws == raws[..n + 1] + raws[n + 1..];
    TellConcat(project, None, raws[..n + 1], raws[n + 1..]);
    if n == 0 {
      assert raws[..0] == [];
    }
  }

  type Read = Json -> seq<P.RawTurn>

  /** The projection of the turns that `read` finds in a state. */
  ghost predicate Projects(project: Projector, read: Read) {
    forall previous: Option<P.Memory>, raw: Json :: project(previous, raw) == P.Project(previous, read(raw))
  }

  function Reads(read: Read, raws: seq<Json>): (r: seq<seq<P.RawTurn>>)
    ensures |r| == |raws|
  {
    seq(|raws|, i requires 0 <= i < |raws| => read(raws[i]))
  }

  lemma {:induction false} TellIsChain(project: Projector, read: Read, raws: seq<Json>)
    requires Projects(project, read)
    ensures C.Chain(Marks(project, raws), Tell(project, None, raws).events, Reads(read, raws))
  {
    var memories, events, rs := Marks(project, raws), Tell(project, None, raws).events, Reads(read, raws);
    forall n | 0 <= n < |raws| ensures C.Link(memories, events, rs, n) {
      TellLinks(project, raws, n);
    }
  }

  /** Main theorem: in every run, from the start of a thread on a connection until it is evicted or reconnected,
      the states built for it, replayed ones included, are projected as one chain. */
  lemma {:induction false} SessionIsChain(view: Json -> View, project: Projector, read: Read, states: seq<State>, memories: seq<Memories>, moves: seq<Move>, a: nat, b: nat, t: ThreadId)
    requires Projects(project, read)
    requires FullRun(view, project, states, memories, moves) && a < b <= |moves| && Session(states, moves, a, b, t)
    ensures var raws := Revisions(view, states, moves, a, b, t);
            C.Chain(Marks(project, raws), Published(view, project, states, memories, moves, a, b, t), Reads(read, raws))
  {
    SessionTells(view, project, states, memories, moves, a, b, t);
    TellIsChain(project, read, Revisions(view, states, moves, a, b, t));
  }

  /** So within a session the store publishes at most one end of each turn. */
  lemma {:induction false} SessionEndsOnce(view: Json -> View, project: Projector, read: Read, states: seq<State>, memories: seq<Memories>, moves: seq<Move>, a: nat, b: nat, t: ThreadId, turn: P.TurnId)
    requires Projects(project, read)
    requires FullRun(view, project, states, memories, moves) && a < b <= |moves| && Session(states, moves, a, b, t)
    ensures var events := Published(view, project, states, memories, moves, a, b, t); C.Total(events, |events|, turn) <= 1
  {
    SessionIsChain(view, project, read, states, memories, moves, a, b, t);
    var events, raws := Published(view, project, states, memories, moves, a, b, t), Revisions(view, states, moves, a, b, t);
    C.AtMostOneEnd(Marks(project, raws), events, Reads(read, raws), |raws|, turn);
  }

  /** And the memory of a cached thread shows the turns of exactly the cached state. */
  lemma {:induction false} RunShowsCached(view: Json -> View, project: Projector, read: Read, states: seq<State>, memories: seq<Memories>, moves: seq<Move>, n: nat, t: ThreadId)
    requires Projects(project, read) && FullRun(view, project, states, memories, moves) && n <= |moves| && t in states[n].threads
    ensures t in memories[n] && memories[n][t].window == P.Shown(read(states[n].threads[t].raw))
  {
    RunMirrors(view, project, states, memories, moves, n);
    var raw := states[n].threads[t].raw;
    assert Reflects(project, memories[n][t], raw);
    var previous :| project(previous, raw).0 == memories[n][t];
    assert project(previous, raw) == P.Project(previous, read(raw));
  }
}
