/** What each step of the gate does to its fields, and what follows over runs: a restart that did not work keeps
    the gate closed, and a gate whose permits come back can be taken (agent/codex_app_server_gate.go). */
module GateEffects {
  import opened Json
  import opened Gate

  /** The step leaves generation, permits and recorded failure as they were. */
  predicate KeepsRecords(s: System, n: System) {
    && n.gate.generation == s.gate.generation && n.gate.failure == s.gate.failure
    && n.gate.activeTurns == s.gate.activeTurns && n.live == s.live
  }

  // ---- Single steps ----

  /** A turn is admitted exactly while the gate runs, under the current generation; its permit comes back once. */
  lemma {:induction false} TurnsComeAndGo(s: System, p: nat)
    ensures Enabled(s, Acquire(p)) <==> p !in s.live && s.gate.phase.Running?
    ensures Enabled(s, Acquire(p)) ==>
              var n := Do(s, Acquire(p));
              && n.live == s.live[p := s.gate.generation] && n.gate == s.gate.(activeTurns := s.gate.activeTurns + 1) && n.ops == s.ops
    ensures Enabled(s, Release(p)) <==> p in s.live
    ensures p in s.live ==>
              var n := Do(s, Release(p));
              && n.live == s.live - {p} && n.ops == s.ops && n.gate.changed > s.gate.changed
              && n.gate == s.gate.(activeTurns := s.gate.activeTurns - 1, changed := n.gate.changed)
  {
  }

  /** An exclusive needs a running gate without active turns, a drain a running one, a forced exclusive one that
      runs or has failed; each closes the gate and keeps everything else. */
  lemma {:induction false} OperationsBegin(s: System, o: nat)
    requires o !in s.ops
    ensures Enabled(s, StartExclusive(o)) <==> s.gate.phase.Running? && s.gate.activeTurns == 0
    ensures Enabled(s, StartForced(o)) <==> s.gate.phase.Running? || s.gate.phase.Failed?
    ensures Enabled(s, StartDrain(o)) <==> s.gate.phase.Running?
    ensures forall a :: a in {StartExclusive(o), StartForced(o), StartDrain(o)} && Enabled(s, a) ==>
              && Do(s, a).gate.phase.Draining? && KeepsRecords(s, Do(s, a)) && Do(s, a).gate.changed > s.gate.changed
              && Do(s, a).ops == s.ops[o := if a.StartExclusive? then Exclusive else if a.StartForced? then Forced else Waiting]
  {
  }

  /** An exclusive that ends reopens the gate exactly if the runtime is available and no failure is on record; the
      generation grows by one exactly if it also committed. */
  lemma {:induction false} ExclusiveEnds(s: System, o: nat, committed: bool, available: bool)
    requires o in s.ops && (s.ops[o].Exclusive? || s.ops[o].Forced?)
    ensures Enabled(s, EndExclusive(o, committed, available))
    ensures var n := Do(s, EndExclusive(o, committed, available));
            && (if available && s.gate.failure.None? then n.gate.phase.Running? else n.gate.phase.Failed?)
            && n.gate.generation == s.gate.generation + (if committed && available && s.gate.failure.None? then 1 else 0)
            && n.gate.failure == s.gate.failure && n.gate.activeTurns == s.gate.activeTurns && n.live == s.live
            && n.ops == s.ops - {o} && n.gate.changed > s.gate.changed
  {
  }

  /** A proven failure closes the gate at any time and goes on record. */
  lemma {:induction false} BreakCloses(s: System, cause: string)
    ensures var n := Do(s, Break(cause));
            && n.gate.phase.Failed? && n.gate.failure == Some(cause) && n.gate.changed > s.gate.changed
            && n.gate.generation == s.gate.generation && n.gate.activeTurns == s.gate.activeTurns && n.live == s.live && n.ops == s.ops
  {
  }

  /** A drain waits for the last turn, then restarts; giving up before reopens the gate. */
  lemma {:induction false} DrainGoesOn(s: System, o: nat)
    requires o in s.ops
    ensures Enabled(s, SeeIdle(o)) <==> s.ops[o].Waiting? && s.gate.activeTurns == 0
    ensures Enabled(s, SeeIdle(o)) ==> Do(s, SeeIdle(o)) == s.(ops := s.ops[o := Idle])
    ensures s.ops[o].Idle? ==>
              var n := Do(s, Mark(o));
              n.gate.phase.Restarting? && KeepsRecords(s, n) && n.ops == s.ops[o := Restart] && n.gate.changed > s.gate.changed
    ensures s.ops[o].Waiting? ==>
              var n := Do(s, Abort(o));
              && n.gate.phase.Running? && n.gate.failure.None? && n.gate.generation == s.gate.generation
              && n.gate.activeTurns == s.gate.activeTurns && n.live == s.live && n.ops == s.ops - {o} && n.gate.changed > s.gate.changed
  {
  }

  /** A restart that worked reopens the gate with a new generation and no failure on record; one that did not
      leaves it failed, with generation, permits and recorded failure as they were. */
  lemma {:induction false} RestartEnds(s: System, o: nat)
    requires o in s.ops && s.ops[o].Restart?
    ensures var n := Do(s, EndDrain(o, true));
            && n.gate.phase.Running? && n.gate.failure.None? && n.gate.generation == s.gate.generation + 1
            && n.gate.activeTurns == s.gate.activeTurns && n.live == s.live && n.ops == s.ops - {o} && n.gate.changed > s.gate.changed
    ensures var n := Do(s, EndDrain(o, false));
            && n.gate.phase.Failed? && KeepsRecords(s, n) && n.ops == s.ops - {o} && n.gate.changed > s.gate.changed
  {
  }

  // ---- A restart that did not work ----

  lemma {:induction false} SuffixRuns(states: seq<System>, steps: seq<Step>, k: nat)
    requires Run(states, steps) && k <= |steps|
    ensures Run(states[k..], steps[k..])
  {
    forall i | 0 <= i < |steps| - k
      ensures Enabled(states[k..][i], steps[k..][i]) && states[k..][i + 1] == Do(states[k..][i], steps[k..][i])
    {
      assert states[k + i + 1] == Do(states[k + i], steps[k + i]);
    }
  }

  /** Main theorem: after a restart that did not work, with nothing else in flight, the gate stays closed and no
      turn is admitted, over the rest of every run, until a forced operation ends as available while no
      failure is on record. */
  lemma {:induction false} FailedRestartStaysClosed(states: seq<System>, steps: seq<Step>, k: nat, n: nat)
    requires Run(states, steps) && k < n <= |steps|
    requires steps[k].EndDrain? && !steps[k].restarted && states[k].ops.Keys == {steps[k].op}
    requires forall j :: k < j < n ==>
               !(steps[j].EndExclusive? && steps[j].available && states[j].gate.failure.None?)
    ensures !states[n].gate.phase.Running? && (n < |steps| ==> !steps[n].Acquire?)
    ensures (forall j :: k < j < n ==> !steps[j].StartForced?) ==> states[n].gate.phase.Failed?
  {
    RestartEnds(states[k], steps[k].op);
    assert states[k + 1] == Do(states[k], steps[k]);
    assert Down(states[k + 1]);
    StaysClosed(states, steps, k + 1, n);
    if n < |steps| {
      DownStep(states[n], steps[n]);
    }
  }

  /** A gate that is down stays so, and failed with nothing in flight as long as nothing is forced. */
  lemma {:induction false} StaysClosed(states: seq<System>, steps: seq<Step>, k: nat, n: nat)
    requires Run(states, steps) && k <= n <= |steps| && Down(states[k])
    requires forall j :: k <= j < n ==> !Reopens(states[j], steps[j])
    ensures Down(states[n])
    ensures states[k].gate.phase.Failed? && states[k].ops == map[] && (forall j :: k <= j < n ==> !steps[j].StartForced?) ==>
              states[n].gate.phase.Failed? && states[n].ops == map[]
    decreases n
  {
    if k < n {
      StaysClosed(states, steps, k, n - 1);
      DownStep(states[n - 1], steps[n - 1]);
      assert states[n - 1 + 1] == Do(states[n - 1], steps[n - 1]);
    }
  }

  /** Exactly: over a whole run that begins with such an end, the gate stays closed if and only if no forced
      operation ends as available without a failure on record. */
  lemma {:induction false} FailedRestartExactly(states: seq<System>, steps: seq<Step>)
    requires Run(states, steps) && steps != []
    requires steps[0].EndDrain? && !steps[0].restarted && states[0].ops.Keys == {steps[0].op}
    ensures (forall n :: 0 < n <= |steps| ==> !states[n].gate.phase.Running?) <==>
              forall n :: 0 < n < |steps| ==> !Reopens(states[n], steps[n])
  {
    RestartEnds(states[0], steps[0].op);
    assert states[0 + 1] == Do(states[0], steps[0]);
    SuffixRuns(states, steps, 1);
    assert states[1].ops == map[];
    StaysFailedExactly(states[1..], steps[1..]);
    if forall n :: 0 < n <= |steps| ==> !states[n].gate.phase.Running? {
      forall n | 0 < n < |steps| ensures !Reopens(states[n], steps[n]) {
        assert !Reopens(states[1..][n - 1], steps[1..][n - 1]);
      }
    }
    if forall n :: 0 < n < |steps| ==> !Reopens(states[n], steps[n]) {
      forall n | 0 < n <= |steps| ensures !states[n].gate.phase.Running? {
        assert !states[1..][n - 1].gate.phase.Running?;
      }
    }
  }

  // ---- A gate that can be taken ----

  /** Main theorem: as long as the gate runs, giving back the permits that are out, in any order one picks, makes
      room for an exclusive. */
  lemma {:induction false} ReleasesMakeRoom(s: System, o: nat) returns (states: seq<System>, steps: seq<Step>)
    requires Accounted(s) && s.gate.phase.Running? && o !in s.ops
    ensures Run(states, steps) && states[0] == s && |steps| == |s.live| && (forall a :: a in steps ==> a.Release?)
    ensures Enabled(states[|steps|], StartExclusive(o)) && states[|steps|].live == map[]
    decreases |s.live|
  {
    if s.live == map[] {
      states, steps := [s], [];
    } else {
      var p :| p in s.live;
      var n := Do(s, Release(p));
      StepIsAccounted(s, Release(p));
      TurnsComeAndGo(s, p);
      OneFewer(s.live, p);
      var rest, more := ReleasesMakeRoom(n, o);
      states, steps := [s] + rest, [Release(p)] + more;
      forall i | 0 <= i < |steps| ensures Enabled(states[i], steps[i]) && states[i + 1] == Do(states[i], steps[i]) {
        if i > 0 {
          assert rest[i - 1 + 1] == Do(rest[i - 1], more[i - 1]);
        }
      }
    }
  }
}
