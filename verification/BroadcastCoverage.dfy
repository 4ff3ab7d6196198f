/** From the broadcast queue to the cache: what happens to the newest patch set of a thread
    (agent/codex_desktop_client_broadcast.go, agent/codex_desktop_state.go). */
module BroadcastCoverage {
  import opened Json
  import opened JsonPatch
  import opened StateReplica
  import opened ReplicaSafety
  import Q = BroadcastQueue

  // ---- In the cache ----

  function EpochOf(e: Event): nat {
    match e
    case SnapshotEvent(_, epoch, _, _, _) => epoch
    case PatchEvent(_, q, _) => q.epoch
    case FollowUpsEvent(_, epoch, _, _) => epoch
  }

  /** The cached thread has reached the set's revision or a newer connection, or a snapshot at or above the
      revision is wanted. */
  predicate Kept(s: State, t: ThreadId, q: PatchSet) {
    || (t in s.threads && (s.threads[t].epoch > q.epoch || (s.threads[t].epoch == q.epoch && s.threads[t].revision >= q.revision)))
    || (t in s.needs && s.needs[t] >= q.revision)
  }

  /** A genuine set that continues the cached state applies. */
  lemma {:induction false} GenuineApplies(h: History, view: Json -> View, s: State, e: Event)
    requires e.PatchEvent? && Agrees(h, s) && Genuine(h, e) && SelfNamed(h)
    requires var t, q := Id(e.thread), e.patchSet; t != NO_THREAD && !Stale(s, t, q.epoch, q.revision) && Contiguous(s, t, q)
    ensures Patched(view, s, e).Some?
  {
    var t, q := Id(e.thread), e.patchSet;
    assert Edge(h, t, q);
    assert RawId(h(t, q.epoch, q.revision).value) == t;
  }

  lemma {:induction false} WaitingIsKept(view: Json -> View, s: State, e: Event, gone: seq<ThreadId>)
    requires e.PatchEvent? && Id(e.thread) != NO_THREAD && e.patchSet.revision >= 1
    requires var t, q := Id(e.thread), e.patchSet; Stale(s, t, q.epoch, q.revision) || !Contiguous(s, t, q)
    ensures Kept(NextPatch(view, s, e, gone), Id(e.thread), e.patchSet)
  {
  }

  lemma {:induction false} AppliedIsKept(view: Json -> View, s: State, e: Event, gone: seq<ThreadId>)
    requires e.PatchEvent? && Patched(view, s, e).Some? && Id(e.thread) !in Names(gone)
    ensures Kept(NextPatch(view, s, e, gone), Id(e.thread), e.patchSet)
  {
    var n := Updated(s, Patched(view, s, e).value);
    assert NextPatch(view, s, e, gone).threads == n.threads - Names(gone);
  }

  lemma {:induction false} PatchIsKept(h: History, view: Json -> View, s: State, e: Event, gone: seq<ThreadId>)
    requires e.PatchEvent? && Agrees(h, s) && Genuine(h, e) && SelfNamed(h) && Allowed(view, s, e, gone)
    requires Id(e.thread) != NO_THREAD && e.patchSet.revision >= 1
    ensures Kept(Next(view, s, e, gone), Id(e.thread), e.patchSet)
  {
    var t, q := Id(e.thread), e.patchSet;
    if Stale(s, t, q.epoch, q.revision) || !Contiguous(s, t, q) {
      WaitingIsKept(view, s, e, gone);
    } else {
      SparesCurrent(view, s, e, gone);
      GenuineApplies(h, view, s, e);
      AppliedIsKept(view, s, e, gone);
    }
  }

  lemma {:induction false} SnapshotKeepsKept(view: Json -> View, s: State, e: Event, gone: seq<ThreadId>, t: ThreadId, q: PatchSet)
    requires e.SnapshotEvent? && Kept(s, t, q) && t !in Names(gone) && e.epoch >= q.epoch
    ensures Kept(NextSnapshot(view, s, e, gone), t, q)
  {
    if AcceptsSnapshot(s, e) {
      ReplayingFacts(view, s, e);
    }
  }

  lemma {:induction false} PatchKeepsKept(view: Json -> View, s: State, e: Event, gone: seq<ThreadId>, t: ThreadId, q: PatchSet)
    requires e.PatchEvent? && Kept(s, t, q) && t !in Names(gone)
    ensures Kept(NextPatch(view, s, e, gone), t, q)
  {
  }

  /** Later broadcasts keep it so, as long as the thread is not evicted and connections do not go back. */
  lemma {:induction false} StepKeepsKept(view: Json -> View, s: State, m: Move, t: ThreadId, q: PatchSet)
    requires Kept(s, t, q) && t !in Evicted(m) && EpochOf(m.event) >= q.epoch
    ensures Kept(Next(view, s, m.event, m.gone), t, q)
  {
    match m.event
    case SnapshotEvent(_, _, _, _, _) => SnapshotKeepsKept(view, s, m.event, m.gone, t, q);
    case PatchEvent(_, _, _) => PatchKeepsKept(view, s, m.event, m.gone, t, q);
    case FollowUpsEvent(_, _, _, _) => FollowUpsOnly(s, m.event, m.gone);
  }

  lemma {:induction false} StaysKept(view: Json -> View, states: seq<State>, moves: seq<Move>, j: nat, n: nat, t: ThreadId, q: PatchSet)
    requires Follows(view, states, moves) && j <= n <= |moves| && Kept(states[j], t, q)
    requires forall k :: j <= k < n ==> t !in Evicted(moves[k]) && EpochOf(moves[k].event) >= q.epoch
    ensures Kept(states[n], t, q)
    decreases n
  {
    if j < n {
      StaysKept(view, states, moves, j, n - 1, t, q);
      assert Links(view, states, moves, n - 1);
      StepKeepsKept(view, states[n - 1], moves[n - 1], t, q);
    }
  }

  /** A genuine patch set that the store has seen at move `j` is kept at the end. */
  lemma {:induction false} SeenIsKept(h: History, view: Json -> View, states: seq<State>, moves: seq<Move>, j: nat)
    requires Run(view, states, moves) && j < |moves| && SelfNamed(h) && forall k :: 0 <= k <= j ==> Genuine(h, moves[k].event)
    requires moves[j].event.PatchEvent? && Id(moves[j].event.thread) != NO_THREAD && moves[j].event.patchSet.revision >= 1
    requires forall k :: j < k < |moves| ==> Id(moves[j].event.thread) !in Evicted(moves[k]) && EpochOf(moves[k].event) >= EpochOf(moves[j].event)
    ensures Kept(states[|moves|], Id(moves[j].event.thread), moves[j].event.patchSet)
  {
    var e := moves[j].event;
    RunAgrees(h, view, states, moves, j);
    assert Links(view, states, moves, j) && Permits(view, states, moves, j);
    PatchIsKept(h, view, states[j], e, moves[j].gone);
    StaysKept(view, states, moves, j + 1, |moves|, Id(e.thread), e.patchSet);
  }

  // ---- In the queue ----

  /** Broadcasts of later connections stand behind. */
  ghost predicate Rising(line: seq<Q.Broadcast>) {
    forall i, j :: 0 <= i < j < |line| ==> line[i].topic.epoch <= line[j].topic.epoch
  }

  ghost predicate UpTo(line: seq<Q.Broadcast>, epoch: nat) {
    forall i :: 0 <= i < |line| ==> line[i].topic.epoch <= epoch
  }

  lemma {:induction false} AppendRises(line: seq<Q.Broadcast>, b: Q.Broadcast)
    requires Rising(line) && UpTo(line, b.topic.epoch)
    ensures Rising(line + [b]) && UpTo(line + [b], b.topic.epoch)
  {
  }

  lemma {:induction false} DropRises(d: seq<Q.Broadcast>, q: seq<Q.Broadcast>, epoch: nat)
    requires Rising(d + q) && UpTo(d + q, epoch) && q != []
    ensures Rising(d + q[1..]) && UpTo(d + q[1..], epoch)
  {
    var whole, part := d + q, d + q[1..];
    forall i | 0 <= i < |part| ensures part[i] == whole[if i < |d| then i else i + 1] {
    }
  }

  lemma {:induction false} EnqueueRises(d: seq<Q.Broadcast>, q: seq<Q.Broadcast>, b: Q.Broadcast)
    requires Rising(d + q) && UpTo(d + q, b.topic.epoch)
    ensures Rising(d + Q.Enqueue(q, b)) && UpTo(d + Q.Enqueue(q, b), b.topic.epoch)
  {
    var n := Q.AfterNewest(q, b.topic);
    if |q| < Q.LIMIT {
      AppendRises(d + q, b);
      assert d + (q + [b]) == (d + q) + [b];
    } else if n > 0 {
      assert d + q[n - 1 := b] == (d + q)[|d| + n - 1 := b];
      assert (d + q)[|d| + n - 1] == q[n - 1];
    } else {
      DropRises(d, q, b.topic.epoch);
      AppendRises(d + q[1..], b);
      assert d + (q[1..] + [b]) == (d + q[1..]) + [b];
    }
  }

  /** The connections of arriving broadcasts do not go back. */
  ghost predicate Forward(steps: seq<Q.Step>) {
    forall m, n :: 0 <= m < n < |steps| && steps[m].Arrive? && steps[n].Arrive? ==> steps[m].topic.epoch <= steps[n].topic.epoch
  }

  lemma {:induction false} LineRises(runs: seq<Q.System>, steps: seq<Q.Step>, n: nat)
    requires Q.Run(runs, steps) && Forward(steps) && n <= |steps|
    ensures Rising(Q.Line(runs[n])) && forall k :: n <= k < |steps| && steps[k].Arrive? ==> UpTo(Q.Line(runs[n]), steps[k].topic.epoch)
  {
    if n > 0 {
      LineRises(runs, steps, n - 1);
      var s, a := runs[n - 1], steps[n - 1];
      assert runs[n - 1 + 1] == Q.Do(s, a);
      match a
      case Arrive(t) =>
        assert UpTo(Q.Line(s), t.epoch);
        EnqueueRises(s.delivered, s.queue, Q.Broadcast(t, s.arrivals));
      case Deliver =>
        if s.queue != [] {
          assert Q.Line(runs[n]) == Q.Line(s);
        }
    }
  }

  /** Each broadcast carries the topic of what arrived under its number. */
  ghost predicate Labelled(line: seq<Q.Broadcast>, topic: Event -> Q.Topic, payload: nat -> Event) {
    forall i :: 0 <= i < |line| ==> line[i].topic == topic(payload(line[i].arrival))
  }

  /** What arrives is `payload(0)`, `payload(1)` and so on. */
  ghost predicate Carries(runs: seq<Q.System>, steps: seq<Q.Step>, topic: Event -> Q.Topic, payload: nat -> Event) {
    |runs| == |steps| + 1 && forall n :: 0 <= n < |steps| && steps[n].Arrive? ==> steps[n].topic == topic(payload(runs[n].arrivals))
  }

  lemma {:induction false} EnqueueMembers(q: seq<Q.Broadcast>, b: Q.Broadcast, x: Q.Broadcast)
    requires x in Q.Enqueue(q, b)
    ensures x == b || x in q
  {
  }

  lemma {:induction false} LineIsLabelled(runs: seq<Q.System>, steps: seq<Q.Step>, topic: Event -> Q.Topic, payload: nat -> Event, n: nat)
    requires Q.Run(runs, steps) && Carries(runs, steps, topic, payload) && n <= |steps|
    ensures Labelled(Q.Line(runs[n]), topic, payload)
  {
    if n > 0 {
      LineIsLabelled(runs, steps, topic, payload, n - 1);
      var s, a := runs[n - 1], steps[n - 1];
      assert runs[n - 1 + 1] == Q.Do(s, a);
      match a
      case Arrive(t) =>
        var b := Q.Broadcast(t, s.arrivals);
        forall x | x in Q.Line(runs[n]) ensures x.topic == topic(payload(x.arrival)) {
          if x in runs[n].queue {
            EnqueueMembers(s.queue, b, x);
          }
          if x != b {
            assert x in Q.Line(s);
          }
        }
      case Deliver =>
        if s.queue != [] {
          assert Q.Line(runs[n]) == Q.Line(s);
        }
    }
  }

  // ---- From end to end ----

  /** The store sees some of the delivered broadcasts, in order; those of an ended connection are not passed on. */
  ghost predicate Passes(delivered: seq<Q.Broadcast>, payload: nat -> Event, passed: seq<nat>, moves: seq<Move>) {
    && |passed| == |moves|
    && (forall j :: 0 <= j < |passed| ==> passed[j] < |delivered| && moves[j].event == payload(delivered[passed[j]].arrival))
    && (forall j, k :: 0 <= j < k < |passed| ==> passed[j] < passed[k])
  }

  /** Without an oldest-drop the newest broadcast of a topic is delivered by a drained queue. */
  lemma {:induction false} NewestIsDelivered(runs: seq<Q.System>, steps: seq<Q.Step>, topic: Event -> Q.Topic, payload: nat -> Event, m: nat)
    returns (i: nat)
    requires Q.Run(runs, steps) && Carries(runs, steps, topic, payload) && m < |steps| && steps[m].Arrive? && runs[|steps|].queue == []
    requires forall k :: m < k < |steps| && steps[k].Arrive? ==> !Q.Drops(runs[k].queue, Q.Broadcast(steps[k].topic, runs[k].arrivals))
    requires forall c :: runs[m].arrivals < c < runs[|steps|].arrivals ==> topic(payload(c)) != steps[m].topic
    ensures i < |runs[|steps|].delivered| && runs[|steps|].delivered[i].arrival == runs[m].arrivals
  {
    var n, last := |steps|, runs[|steps|];
    Q.NewestSurvives(runs, steps, m, n);
    Q.RunIsSound(runs, steps, n);
    LineIsLabelled(runs, steps, topic, payload, n);
    assert Q.Line(last) == last.delivered;
    i :| 0 <= i < |Q.Line(last)| && Q.Line(last)[i].topic == steps[m].topic && Q.Line(last)[i].arrival >= runs[m].arrivals;
  }

  /** The epochs of what the store sees do not go back. */
  lemma {:induction false} MovesRise(delivered: seq<Q.Broadcast>, topic: Event -> Q.Topic, payload: nat -> Event, passed: seq<nat>, moves: seq<Move>, j: nat, k: nat)
    requires Rising(delivered) && Labelled(delivered, topic, payload) && Passes(delivered, payload, passed, moves) && j < k < |moves|
    requires forall e :: topic(e).epoch == EpochOf(e)
    ensures EpochOf(moves[j].event) <= EpochOf(moves[k].event)
  {
    assert passed[j] < passed[k];
    assert delivered[passed[j]].topic.epoch <= delivered[passed[k]].topic.epoch;
    assert topic(moves[j].event).epoch == EpochOf(moves[j].event) && topic(moves[k].event).epoch == EpochOf(moves[k].event);
  }

  /** Main theorem: when the queue has been drained without an oldest-drop since its arrival, the newest broadcast
      of its topic, a genuine patch set whose connection still stood when it was delivered, has been seen by the
      store at some move `j`; and unless its thread was evicted since, the cache has reached its revision or a
      newer connection, or a snapshot at or above the revision is wanted. */
  lemma {:induction false} NewestPatchIsKept(runs: seq<Q.System>, steps: seq<Q.Step>, topic: Event -> Q.Topic, payload: nat -> Event, m: nat,
                                            h: History, view: Json -> View, states: seq<State>, moves: seq<Move>, passed: seq<nat>)
    returns (j: nat)
    requires Q.Run(runs, steps) && Carries(runs, steps, topic, payload) && Forward(steps)
    requires m < |steps| && steps[m].Arrive? && runs[|steps|].queue == []
    requires forall k :: m < k < |steps| && steps[k].Arrive? ==> !Q.Drops(runs[k].queue, Q.Broadcast(steps[k].topic, runs[k].arrivals))
    requires forall c :: runs[m].arrivals < c < runs[|steps|].arrivals ==> topic(payload(c)) != steps[m].topic
    requires forall e :: topic(e).epoch == EpochOf(e)
    requires Run(view, states, moves) && Passes(runs[|steps|].delivered, payload, passed, moves)
    requires SelfNamed(h) && forall k :: 0 <= k < |moves| ==> Genuine(h, moves[k].event)
    requires var e := payload(runs[m].arrivals); e.PatchEvent? && Id(e.thread) != NO_THREAD && e.patchSet.revision >= 1
    requires forall i :: 0 <= i < |runs[|steps|].delivered| && runs[|steps|].delivered[i].arrival == runs[m].arrivals ==> i in passed
    ensures j < |moves| && moves[j].event == payload(runs[m].arrivals)
    ensures var e := payload(runs[m].arrivals);
            (forall k :: j < k < |moves| ==> Id(e.thread) !in Evicted(moves[k])) ==> Kept(states[|moves|], Id(e.thread), e.patchSet)
  {
    var n, last := |steps|, runs[|steps|];
    var i := NewestIsDelivered(runs, steps, topic, payload, m);
    j :| 0 <= j < |passed| && passed[j] == i;
    LineRises(runs, steps, n);
    LineIsLabelled(runs, steps, topic, payload, n);
    assert Q.Line(last) == last.delivered;
    var e := moves[j].event;
    if forall k :: j < k < |moves| ==> Id(e.thread) !in Evicted(moves[k]) {
      forall k | j < k < |moves| ensures EpochOf(moves[k].event) >= EpochOf(e) {
        MovesRise(last.delivered, topic, payload, passed, moves, j, k);
      }
      SeenIsKept(h, view, states, moves, j);
    }
  }
}
