/** Which states the store builds and has projected, said of the broadcasts and of the waiting patch sets: none is
    left out and none is told twice (agent/codex_desktop_state.go, agent/codex_desktop_state_queue.go). */
module BuiltStates {
  import opened Json
  import opened JsonPatch
  import opened Text
  import opened StateReplica
  import opened ReplicaSafety
  import opened StoreEffects
  import opened ReplicaProjection

  /** The revision after the first `k` of the chosen sets. */
  function At(revision: nat, queue: seq<PatchSet>, picks: seq<nat>, k: nat): nat
    requires k <= |picks| && forall j :: 0 <= j < |picks| ==> picks[j] < |queue|
  {
    if k == 0 then revision else queue[picks[k - 1]].revision
  }

  /** The chosen set starts at the revision that the ones before it lead to and takes one state to the next. */
  predicate Hop(epoch: nat, revision: nat, queue: seq<PatchSet>, picks: seq<nat>, raws: seq<Json>, k: nat)
    requires |raws| == |picks| + 1 && k < |picks| && forall j :: 0 <= j < |picks| ==> picks[j] < |queue|
  {
    var q := queue[picks[k]];
    q.epoch == epoch && At(revision, queue, picks, k) == q.base < q.revision && ApplyAll(raws[k], q.patches) == Some(raws[k + 1])
  }

  /** The states come one after the other from the first by the chosen sets, which stand in queue order and lead
      from one revision to another without a gap. */
  ghost predicate Steps(epoch: nat, from: nat, to: nat, queue: seq<PatchSet>, picks: seq<nat>, raws: seq<Json>) {
    && |raws| == |picks| + 1
    && (forall j :: 0 <= j < |picks| ==> picks[j] < |queue|)
    && (forall j, k :: 0 <= j < k < |picks| ==> picks[j] < picks[k])
    && (forall k :: 0 <= k < |picks| ==> Hop(epoch, from, queue, picks, raws, k))
    && to == At(from, queue, picks, |picks|)
  }

  /** The same with one more set in front of the queue. */
  lemma {:induction false} StepsFurtherOn(epoch: nat, from: nat, to: nat, queue: seq<PatchSet>, picks: seq<nat>, raws: seq<Json>)
    returns (further: seq<nat>)
    requires queue != [] && Steps(epoch, from, to, queue[1..], picks, raws)
    ensures Steps(epoch, from, to, queue, further, raws) && |further| == |picks|
    ensures forall j :: 0 <= j < |further| ==> further[j] == picks[j] + 1
  {
    further := seq(|picks|, j requires 0 <= j < |picks| => picks[j] + 1);
    forall k | 0 <= k < |further| ensures Hop(epoch, from, queue, further, raws, k) {
      assert Hop(epoch, from, queue[1..], picks, raws, k);
    }
  }

  /** The same with one more step at the start. */
  lemma {:induction false} StepsAfterFirst(epoch: nat, from: nat, to: nat, queue: seq<PatchSet>, picks: seq<nat>, raws: seq<Json>, first: Json)
    returns (more: seq<nat>)
    requires queue != [] && (forall j :: 0 <= j < |picks| ==> picks[j] > 0)
    requires Steps(epoch, queue[0].revision, to, queue, picks, raws)
    requires queue[0].epoch == epoch && queue[0].base == from < queue[0].revision && ApplyAll(first, queue[0].patches) == Some(raws[0])
    ensures Steps(epoch, from, to, queue, more, [first] + raws) && more == [0] + picks
  {
    more := [0] + picks;
    var all := [first] + raws;
    forall k | 0 <= k < |more| ensures Hop(epoch, from, queue, more, all, k) {
      if k > 0 {
        assert Hop(epoch, queue[0].revision, queue, picks, raws, k - 1);
      }
    }
  }

  /** The clock reading of the last step. */
  function LastRead(picks: seq<nat>, clock: nat -> int, at: nat, before: int): int {
    if picks == [] then before else clock(at + picks[|picks| - 1])
  }

  /** The states lead up to the snapshot `end`, which is viewed as it is and dated by its last step. */
  ghost predicate LeadTo(view: Json -> View, cur: Snapshot, queue: seq<PatchSet>, clock: nat -> int, at: nat, picks: seq<nat>,
                         raws: seq<Json>, end: Snapshot) {
    && Steps(cur.epoch, cur.revision, end.revision, queue, picks, raws)
    && end.updatedAt == LastRead(picks, clock, at, cur.updatedAt)
    && (cur.view == view(cur.raw) ==> end.view == view(end.raw))
  }

  lemma {:induction false} LeadFurtherOn(view: Json -> View, cur: Snapshot, queue: seq<PatchSet>, clock: nat -> int, at: nat, picks: seq<nat>,
                                        raws: seq<Json>, end: Snapshot) returns (further: seq<nat>)
    requires queue != [] && LeadTo(view, cur, queue[1..], clock, at + 1, picks, raws, end)
    ensures LeadTo(view, cur, queue, clock, at, further, raws, end) && forall j :: 0 <= j < |further| ==> further[j] > 0
  {
    further := StepsFurtherOn(cur.epoch, cur.revision, end.revision, queue, picks, raws);
  }

  lemma {:induction false} LeadAfterFirst(view: Json -> View, fu: map<ThreadId, FollowUps>, cur: Snapshot, queue: seq<PatchSet>, clock: nat -> int,
                                         at: nat, picks: seq<nat>, raws: seq<Json>, end: Snapshot) returns (more: seq<nat>)
    requires queue != [] && !Obsolete(cur, queue[0]) && queue[0].base == cur.revision && Advance(view, fu, cur, queue[0], clock(at)).Some?
    requires raws != [] && raws[0] == Advance(view, fu, cur, queue[0], clock(at)).value.raw
    requires LeadTo(view, Advance(view, fu, cur, queue[0], clock(at)).value, queue, clock, at, picks, raws, end)
    requires forall j :: 0 <= j < |picks| ==> picks[j] > 0
    ensures LeadTo(view, cur, queue, clock, at, more, [cur.raw] + raws, end)
  {
    more := StepsAfterFirst(cur.epoch, cur.revision, end.revision, queue, picks, raws, cur.raw);
  }

  lemma {:induction false} ReplaysStepByStep(view: Json -> View, fu: map<ThreadId, FollowUps>, cur: Snapshot, queue: seq<PatchSet>,
                                            clock: nat -> int, at: nat) returns (picks: seq<nat>)
    ensures LeadTo(view, cur, queue, clock, at, picks, [cur.raw] + Replays(view, fu, cur, queue, clock, at),
                   Replay(view, fu, cur, queue, clock, at).cur)
    decreases |queue|
  {
    picks := [];
    if queue != [] {
      var q, rest, end := queue[0], queue[1..], Replay(view, fu, cur, queue, clock, at).cur;
      if Obsolete(cur, q) || q.base != cur.revision {
        var later := ReplaysStepByStep(view, fu, cur, rest, clock, at + 1);
        picks := LeadFurtherOn(view, cur, queue, clock, at, later, [cur.raw] + Replays(view, fu, cur, rest, clock, at + 1), end);
      } else if Advance(view, fu, cur, q, clock(at)).Some? {
        var next := Advance(view, fu, cur, q, clock(at)).value;
        var raws := [next.raw] + Replays(view, fu, next, rest, clock, at + 1);
        var later := ReplaysStepByStep(view, fu, next, rest, clock, at + 1);
        var further := LeadFurtherOn(view, next, queue, clock, at, later, raws, end);
        picks := LeadAfterFirst(view, fu, cur, queue, clock, at, further, raws, end);
      }
    }
  }

  /** Main theorem: an accepted snapshot has projected the snapshot itself and then, one by one, each state that
      waiting sets lead to, up to the revision that is cached. */
  lemma {:induction false} SnapshotBuildsEach(view: Json -> View, s: State, e: Event, gone: seq<ThreadId>, t: ThreadId) returns (picks: seq<nat>)
    requires e.SnapshotEvent? && IsNamed(e.thread, t) && Carries(e.raw, t) && Newer(s, t, e.epoch, e.revision)
    requires Allowed(view, s, e, gone)
    ensures var raws, n := Built(view, s, e), Next(view, s, e, gone);
            && raws != [] && raws[0] == e.raw && t in n.threads && raws[|raws| - 1] == n.threads[t].raw
            && Steps(e.epoch, e.revision, n.threads[t].revision, if t in s.queued then s.queued[t] else [], picks, raws)
            && n.threads[t].view == view(n.threads[t].raw)
            && n.threads[t].updatedAt == if picks == [] then e.clock(0) else e.clock(1 + picks[|picks| - 1])
  {
    AcceptedExactly(s, e, t);
    SparesCurrent(view, s, e, gone);
    AcceptedOutcome(view, s, e, gone);
    InstalledBuilds(view, s, e);
    var m := Received(view, s, e);
    picks := ReplaysStepByStep(view, m.followUps, m.threads[t], Queue(m, t), e.clock, 1);
  }

  /** An applied set has its own result projected; everything that is not reported as applied, and all follow-ups,
      have nothing projected. */
  lemma {:induction false} BuildsExactly(view: Json -> View, s: State, e: Event, gone: seq<ThreadId>, t: ThreadId)
    requires t == ThreadId(Trim(e.thread)) && Allowed(view, s, e, gone)
    ensures Built(view, s, e) == [] <==> e.FollowUpsEvent? || !Applied(view, s, e)
    ensures e.PatchEvent? && Applied(view, s, e) ==>
              t in s.threads && Some(Built(view, s, e)[0]) == ApplyAll(s.threads[t].raw, e.patchSet.patches) && |Built(view, s, e)| == 1
  {
    AppliedExactly(view, s, e, t);
  }
}
