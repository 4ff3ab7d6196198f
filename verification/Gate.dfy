/** The app-server gate: turns hold permits, maintenance drains or excludes them, and a proven-unsafe
    runtime fails closed (agent/codex_app_server_gate.go).  Every critical section is one step; waiting
    is retrying. */
module Gate {
  import opened Json

  datatype Phase = Running | Draining | Restarting | Failed

  /** `changed` counts the wake-ups broadcast to waiters. */
  datatype GateState = GateState(phase: Phase, generation: nat, activeTurns: int, failure: Option<string>, changed: nat)

  function NewGate(): GateState {
    GateState(Running, 1, 0, None, 0)
  }

  function Notify(g: GateState): GateState {
    g.(changed := g.changed + 1)
  }

  function BeginExclusive(g: GateState): Option<GateState> {
    if g.phase.Running? && g.activeTurns == 0 then Some(Notify(g.(phase := Draining))) else None
  }

  function BeginForcedExclusive(g: GateState): Option<GateState> {
    if g.phase.Running? || g.phase.Failed? then Some(Notify(g.(phase := Draining))) else None
  }

  function FinishExclusive(g: GateState, committed: bool, available: bool): GateState {
    if !available || g.failure.Some? then Notify(g.(phase := Failed))
    else Notify(g.(phase := Running, generation := if committed then g.generation + 1 else g.generation))
  }

  function Fail(g: GateState, cause: string): GateState {
    Notify(g.(phase := Failed, failure := Some(cause)))
  }

  function BeginDrain(g: GateState): Option<GateState> {
    if g.phase.Running? then Some(Notify(g.(phase := Draining))) else None
  }

  function MarkRestarting(g: GateState): GateState {
    Notify(g.(phase := Restarting))
  }

  function AbortDrain(g: GateState): GateState {
    Notify(g.(phase := Running, failure := None))
  }

  function FinishRestart(g: GateState, restarted: bool): GateState {
    if restarted then Notify(g.(phase := Running, generation := g.generation + 1, failure := None))
    else Notify(g.(phase := Failed))
  }

  // ---- Many turns and maintenance operations at once ----

  /** How far a maintenance operation has come. */
  datatype Operation = Exclusive | Forced | Waiting | Idle | Restart

  predicate IsDrain(op: Operation) {
    op.Waiting? || op.Idle? || op.Restart?
  }

  /** The gate together with the permits that are out and the operations in flight. */
  datatype System = System(gate: GateState, live: map<nat, nat>, ops: map<nat, Operation>)

  datatype Step =
    | Acquire(permit: nat)
    | Release(permit: nat)
    | StartExclusive(op: nat)
    | StartForced(op: nat)
    | EndExclusive(op: nat, committed: bool, available: bool)
    | Break(cause: string)
    | StartDrain(op: nat)
    | SeeIdle(op: nat)
    | Mark(op: nat)
    | Abort(op: nat)
    | EndDrain(op: nat, restarted: bool)

  function NewSystem(): System {
    System(NewGate(), map[], map[])
  }

  /** The step succeeds; a refused or waiting call changes nothing. */
  predicate Enabled(s: System, a: Step) {
    match a
    case Acquire(p) => p !in s.live && s.gate.phase.Running?
    case Release(p) => p in s.live
    case StartExclusive(o) => o !in s.ops && BeginExclusive(s.gate).Some?
    case StartForced(o) => o !in s.ops && BeginForcedExclusive(s.gate).Some?
    case EndExclusive(o, _, _) => o in s.ops && (s.ops[o].Exclusive? || s.ops[o].Forced?)
    case Break(_) => true
    case StartDrain(o) => o !in s.ops && BeginDrain(s.gate).Some?
    case SeeIdle(o) => o in s.ops && s.ops[o].Waiting? && s.gate.activeTurns == 0
    case Mark(o) => o in s.ops && s.ops[o].Idle?
    case Abort(o) => o in s.ops && s.ops[o].Waiting?
    case EndDrain(o, _) => o in s.ops && s.ops[o].Restart?
  }

  function Do(s: System, a: Step): System
    requires Enabled(s, a)
  {
    match a
    case Acquire(p) =>
      s.(gate := s.gate.(activeTurns := s.gate.activeTurns + 1), live := s.live[p := s.gate.generation])
    case Release(p) =>
      s.(gate := Notify(s.gate.(activeTurns := s.gate.activeTurns - 1)), live := s.live - {p})
    case StartExclusive(o) => s.(gate := BeginExclusive(s.gate).value, ops := s.ops[o := Exclusive])
    case StartForced(o) => s.(gate := BeginForcedExclusive(s.gate).value, ops := s.ops[o := Forced])
    case EndExclusive(o, c, v) => s.(gate := FinishExclusive(s.gate, c, v), ops := s.ops - {o})
    case Break(cause) => s.(gate := Fail(s.gate, cause))
    case StartDrain(o) => s.(gate := BeginDrain(s.gate).value, ops := s.ops[o := Waiting])
    case SeeIdle(o) => s.(ops := s.ops[o := Idle])
    case Mark(o) => s.(gate := MarkRestarting(s.gate), ops := s.ops[o := Restart])
    case Abort(o) => s.(gate := AbortDrain(s.gate), ops := s.ops - {o})
    case EndDrain(o, r) => s.(gate := FinishRestart(s.gate, r), ops := s.ops - {o})
  }

  /** States of a run, one more than its steps. */
  ghost predicate Run(states: seq<System>, steps: seq<Step>) {
    && |states| == |steps| + 1
    && forall i :: 0 <= i < |steps| ==> Enabled(states[i], steps[i]) && states[i + 1] == Do(states[i], steps[i])
  }

  // ---- Accounting ----

  /** `activeTurns` is the number of permits out, and a gate that admits turns records no failure. */
  predicate Accounted(s: System) {
    s.gate.activeTurns == |s.live| && (s.gate.phase.Running? ==> s.gate.failure.None?)
  }

  lemma StepIsAccounted(s: System, a: Step)
    requires Accounted(s) && Enabled(s, a)
    ensures Accounted(Do(s, a))
  {
    if a.Release? {
      OneFewer(s.live, a.permit);
    } else if a.Acquire? {
      OneMore(s.live, a.permit, s.gate.generation);
    } else {
      assert Do(s, a).live == s.live;
    }
  }

  lemma OneFewer(m: map<nat, nat>, p: nat)
    requires p in m
    ensures |m - {p}| == |m| - 1
  {
    assert m.Keys == (m - {p}).Keys + {p};
  }

  lemma OneMore(m: map<nat, nat>, p: nat, g: nat)
    requires p !in m
    ensures |m[p := g]| == |m| + 1
  {
    assert m[p := g].Keys == m.Keys + {p};
  }

  lemma {:induction false} RunIsAccounted(states: seq<System>, steps: seq<Step>, n: nat)
    requires Run(states, steps) && Accounted(states[0]) && n <= |steps|
    ensures Accounted(states[n])
    decreases n
  {
    if n > 0 {
      RunIsAccounted(states, steps, n - 1);
      StepIsAccounted(states[n - 1], steps[n - 1]);
    }
  }

  // ---- One operation at a time ----

  /** At most one operation is in flight, and while one is no turn is admitted. */
  ghost predicate Single(s: System) {
    (forall o, p :: o in s.ops && p in s.ops ==> o == p) && (s.ops != map[] ==> !s.gate.phase.Running?)
  }

  /** A forced exclusive that starts beside another operation. */
  predicate Intrudes(s: System, a: Step) {
    a.StartForced? && s.ops != map[]
  }

  /** Only such a step puts two operations in flight or admits turns beside one. */
  lemma {:induction false} SingleBreaksExactly(s: System, a: Step)
    requires Single(s) && Enabled(s, a)
    ensures Single(Do(s, a)) <==> !Intrudes(s, a)
  {
    var n := Do(s, a);
    if Intrudes(s, a) {
      var o :| o in s.ops;
      assert o in n.ops && a.op in n.ops;
    } else if a.StartForced? || a.StartExclusive? || a.StartDrain? {
      assert a.op in n.ops && forall o :: o in n.ops ==> o == a.op;
    } else if a.EndExclusive? || a.Abort? || a.EndDrain? {
      assert n.ops == map[];
    }
  }

  /** Over every run: operations never overlap and no permit is granted during one exactly if no forced
      exclusive starts beside another operation. */
  lemma {:induction false} RunIsSingleExactly(states: seq<System>, steps: seq<Step>)
    requires Run(states, steps) && Single(states[0])
    ensures (forall n :: 0 <= n <= |steps| ==> Single(states[n])) <==>
              forall n :: 0 <= n < |steps| ==> !Intrudes(states[n], steps[n])
    ensures (forall n :: 0 <= n < |steps| ==> !Intrudes(states[n], steps[n])) ==>
              forall n :: 0 <= n < |steps| && steps[n].Acquire? ==> states[n].ops == map[]
  {
    if forall n :: 0 <= n <= |steps| ==> Single(states[n]) {
      forall n | 0 <= n < |steps| ensures !Intrudes(states[n], steps[n]) {
        SingleBreaksExactly(states[n], steps[n]);
        assert Single(states[n + 1]);
      }
    }
    if forall n :: 0 <= n < |steps| ==> !Intrudes(states[n], steps[n]) {
      forall n | 0 <= n <= |steps| ensures Single(states[n]) {
        StaysSingle(states, steps, n);
      }
    }
  }

  lemma {:induction false} StaysSingle(states: seq<System>, steps: seq<Step>, n: nat)
    requires Run(states, steps) && Single(states[0]) && n <= |steps|
    requires forall k :: 0 <= k < |steps| ==> !Intrudes(states[k], steps[k])
    ensures Single(states[n])
    decreases n
  {
    if n > 0 {
      StaysSingle(states, steps, n - 1);
      SingleBreaksExactly(states[n - 1], steps[n - 1]);
    }
  }

  /** In addition live permits belong to the current generation, and an operation that may touch the runtime
      has no live permit beside it. */
  ghost predicate Orderly(s: System) {
    && Single(s)
    && (forall p :: p in s.live ==> s.live[p] == s.gate.generation)
    && (forall o :: o in s.ops && !s.ops[o].Waiting? ==> s.live == map[])
  }

  /** A forced exclusive that starts beside another operation or over live permits. */
  predicate Overrides(s: System, a: Step) {
    a.StartForced? && (s.ops != map[] || s.live != map[])
  }

  lemma {:induction false} OrderBreaksExactly(s: System, a: Step)
    requires Accounted(s) && Orderly(s) && Enabled(s, a)
    ensures Orderly(Do(s, a)) <==> !Overrides(s, a)
  {
    var n := Do(s, a);
    SingleBreaksExactly(s, a);
    if a.StartExclusive? || a.SeeIdle? {
      assert s.live == map[];
    } else if a.StartForced? {
      assert n.ops[a.op].Forced? && n.live == s.live;
    }
  }

  /** Over every run that starts in order: operations, permits and generations stay in order exactly if every
      forced exclusive starts with nothing in flight and no permit out. */
  lemma {:induction false} RunIsOrderlyExactly(states: seq<System>, steps: seq<Step>)
    requires Run(states, steps) && Accounted(states[0]) && Orderly(states[0])
    ensures (forall n :: 0 <= n <= |steps| ==> Orderly(states[n])) <==>
              forall n :: 0 <= n < |steps| ==> !Overrides(states[n], steps[n])
  {
    if forall n :: 0 <= n <= |steps| ==> Orderly(states[n]) {
      forall n | 0 <= n < |steps| ensures !Overrides(states[n], steps[n]) {
        RunIsAccounted(states, steps, n);
        OrderBreaksExactly(states[n], steps[n]);
        assert Orderly(states[n + 1]);
      }
    }
    if forall n :: 0 <= n < |steps| ==> !Overrides(states[n], steps[n]) {
      forall n | 0 <= n <= |steps| ensures Orderly(states[n]) {
        StaysOrderly(states, steps, n);
      }
    }
  }

  lemma {:induction false} StaysOrderly(states: seq<System>, steps: seq<Step>, n: nat)
    requires Run(states, steps) && Accounted(states[0]) && Orderly(states[0]) && n <= |steps|
    requires forall k :: 0 <= k < |steps| ==> !Overrides(states[k], steps[k])
    ensures Orderly(states[n])
    decreases n
  {
    if n > 0 {
      StaysOrderly(states, steps, n - 1);
      RunIsAccounted(states, steps, n - 1);
      OrderBreaksExactly(states[n - 1], steps[n - 1]);
    }
  }

  /** An instance: after a failure during an exclusive a forced one starts beside it. */
  lemma ForcedMayOverlap()
    ensures exists states: seq<System>, steps: seq<Step> :: Run(states, steps) && states[0] == NewSystem() &&
              0 in states[|steps|].ops && 1 in states[|steps|].ops
  {
    var s0 := NewSystem();
    var steps := [StartExclusive(0), Break("unsafe"), StartForced(1)];
    var s1 := Do(s0, steps[0]);
    var s2 := Do(s1, steps[1]);
    var s3 := Do(s2, steps[2]);
    assert Run([s0, s1, s2, s3], steps);
  }

  // ---- Failure is sticky ----

  predicate DrainInFlight(s: System) {
    exists o :: o in s.ops && IsDrain(s.ops[o])
  }

  /** Failed for good. */
  predicate Stuck(s: System) {
    s.gate.failure.Some? && !DrainInFlight(s) && !s.gate.phase.Running?
  }

  lemma StuckStays(s: System, a: Step)
    requires Stuck(s) && Enabled(s, a)
    ensures Stuck(Do(s, a)) && !a.Acquire?
  {
    var n := Do(s, a);
    forall o | o in n.ops
      ensures !IsDrain(n.ops[o])
    {
      if o in s.ops {
        assert !IsDrain(s.ops[o]);
      }
    }
  }

  /** After a failure with no drain in flight no turn is ever admitted again, whatever happens. */
  lemma {:induction false} FailureIsSticky(states: seq<System>, steps: seq<Step>, n: nat)
    requires Run(states, steps) && Accounted(states[0])
    requires states[0].gate.failure.Some? && !DrainInFlight(states[0])
    requires n <= |steps|
    ensures Stuck(states[n]) && (n < |steps| ==> !steps[n].Acquire?)
    decreases n
  {
    if n > 0 {
      FailureIsSticky(states, steps, n - 1);
      StuckStays(states[n - 1], steps[n - 1]);
    }
    if n < |steps| {
      StuckStays(states[n], steps[n]);
    }
  }

  /** Some continuation admits turns again. */
  ghost predicate MayReopen(s: System) {
    exists states: seq<System>, steps: seq<Step> :: Run(states, steps) && states[0] == s && states[|steps|].gate.phase.Running?
  }

  /** Exactly a drain in flight can reopen a gate with a recorded failure. */
  lemma ReopensExactlyByDrain(s: System)
    requires Accounted(s) && s.gate.failure.Some?
    ensures MayReopen(s) <==> DrainInFlight(s)
  {
    if DrainInFlight(s) {
      DrainReopens(s);
    } else {
      forall states: seq<System>, steps | Run(states, steps) && states[0] == s
        ensures !states[|steps|].gate.phase.Running?
      {
        FailureIsSticky(states, steps, |steps|);
      }
    }
  }

  lemma DrainReopens(s: System)
    requires DrainInFlight(s)
    ensures MayReopen(s)
  {
    var o :| o in s.ops && IsDrain(s.ops[o]);
    match s.ops[o]
    case Waiting =>
      assert Run([s, Do(s, Abort(o))], [Abort(o)]);
    case Idle =>
      var t := Do(s, Mark(o));
      assert Run([s, t, Do(t, EndDrain(o, true))], [Mark(o), EndDrain(o, true)]);
    case Restart =>
      assert Run([s, Do(s, EndDrain(o, true))], [EndDrain(o, true)]);
  }

  /** An instance from the start: a drain that gives up clears the failure recorded while it waited, and a turn
      is admitted. */
  lemma DrainMayReopen()
    ensures exists states: seq<System>, steps: seq<Step> :: Run(states, steps) && states[0] == NewSystem() && |steps| == 4 &&
              states[2].gate.failure.Some? && steps[3].Acquire?
  {
    var s0 := NewSystem();
    var steps := [StartDrain(0), Break("unsafe"), Abort(0), Acquire(0)];
    var s1 := Do(s0, steps[0]);
    var s2 := Do(s1, steps[1]);
    var s3 := Do(s2, steps[2]);
    assert Run([s0, s1, s2, s3, Do(s3, steps[3])], steps);
  }

  // ---- A gate that an operation left failed ----

  /** An operation reopens the gate: it ends as available and no failure is on record. */
  predicate Reopens(s: System, a: Step) {
    a.EndExclusive? && a.available && s.gate.failure.None?
  }

  /** Failed by the outcome of an operation, and at most forced operations since. */
  ghost predicate Down(s: System) {
    !s.gate.phase.Running? && forall o :: o in s.ops ==> s.ops[o].Forced?
  }

  lemma {:induction false} DownStep(s: System, a: Step)
    requires Down(s) && Enabled(s, a)
    ensures !a.Acquire? && (Down(Do(s, a)) <==> !Reopens(s, a))
    ensures Reopens(s, a) ==> Do(s, a).gate.phase.Running?
  {
  }

  lemma {:induction false} StaysDown(states: seq<System>, steps: seq<Step>, n: nat)
    requires Run(states, steps) && Down(states[0]) && n <= |steps|
    requires forall k :: 0 <= k < n ==> !Reopens(states[k], steps[k])
    ensures Down(states[n])
    decreases n
  {
    if n > 0 {
      StaysDown(states, steps, n - 1);
      DownStep(states[n - 1], steps[n - 1]);
    }
  }

  /** A gate that failed with nothing in flight stays closed over a whole run exactly if no forced operation
      of the run ends as available while no failure is on record; until then no turn is admitted. */
  lemma {:induction false} StaysFailedExactly(states: seq<System>, steps: seq<Step>)
    requires Run(states, steps) && states[0].gate.phase.Failed? && states[0].ops == map[]
    ensures (forall n :: 0 <= n <= |steps| ==> !states[n].gate.phase.Running?) <==>
              forall n :: 0 <= n < |steps| ==> !Reopens(states[n], steps[n])
    ensures (forall n :: 0 <= n < |steps| ==> !Reopens(states[n], steps[n])) ==>
              forall n :: 0 <= n < |steps| ==> !steps[n].Acquire?
  {
    if n :| 0 <= n < |steps| && Reopens(states[n], steps[n]) {
      var k := FirstReopening(states, steps, n);
      StaysDown(states, steps, k);
      DownStep(states[k], steps[k]);
      assert states[k + 1].gate.phase.Running?;
    } else {
      forall n | 0 <= n <= |steps| ensures Down(states[n]) {
        StaysDown(states, steps, n);
      }
      forall n | 0 <= n < |steps| ensures !steps[n].Acquire? {
        DownStep(states[n], steps[n]);
      }
    }
  }

  lemma {:induction false} FirstReopening(states: seq<System>, steps: seq<Step>, n: nat) returns (k: nat)
    requires n < |steps| < |states| && Reopens(states[n], steps[n])
    ensures k <= n && Reopens(states[k], steps[k]) && forall j :: 0 <= j < k ==> !Reopens(states[j], steps[j])
  {
    k := 0;
    while !Reopens(states[k], steps[k])
      invariant k <= n && forall j :: 0 <= j < k ==> !Reopens(states[j], steps[j])
      decreases n - k
    {
      k := k + 1;
    }
  }

  /** Such a gate can be reopened exactly if no failure is on record. */
  lemma {:induction false} FailedReopensExactly(s: System)
    requires Accounted(s) && s.gate.phase.Failed? && s.ops == map[]
    ensures MayReopen(s) <==> s.gate.failure.None?
  {
    if s.gate.failure.None? {
      var t := Do(s, StartForced(0));
      assert Run([s, t, Do(t, EndExclusive(0, false, true))], [StartForced(0), EndExclusive(0, false, true)]);
    } else {
      ReopensExactlyByDrain(s);
    }
  }

  /** An instance from the start: an exclusive ends as unavailable, a forced one takes the failed gate and ends
      as available without having repaired anything, and a turn is admitted. */
  lemma FailedMayReopen()
    ensures exists states: seq<System>, steps: seq<Step> :: Run(states, steps) && states[0] == NewSystem() && |steps| == 5 &&
              states[2].gate.phase.Failed? && states[2].ops == map[] && steps[4].Acquire?
  {
    var s0 := NewSystem();
    var steps := [StartExclusive(0), EndExclusive(0, false, false), StartForced(1), EndExclusive(1, false, true), Acquire(0)];
    var s1 := Do(s0, steps[0]);
    var s2 := Do(s1, steps[1]);
    var s3 := Do(s2, steps[2]);
    var s4 := Do(s3, steps[3]);
    assert Run([s0, s1, s2, s3, s4, Do(s4, steps[4])], steps);
  }

  // ---- No lost wake-up ----

  /** A waiter that saw the gate busy and remembers its wake-up count is woken before the phase it saw
      changes, and before a turn ends. */
  lemma {:induction false} NoLostWakeUp(states: seq<System>, steps: seq<Step>, from: nat, last: nat)
    requires Run(states, steps) && from <= last <= |steps|
    ensures states[from].gate.changed <= states[last].gate.changed
    ensures states[from].gate.changed == states[last].gate.changed ==>
              && states[from].gate.phase == states[last].gate.phase
              && states[from].gate.activeTurns <= states[last].gate.activeTurns
    decreases last
  {
    if from < last {
      NoLostWakeUp(states, steps, from, last - 1);
      assert states[last - 1 + 1] == Do(states[last - 1], steps[last - 1]);
      StepWakes(states[last - 1], steps[last - 1]);
    }
  }

  lemma StepWakes(s: System, a: Step)
    requires Enabled(s, a)
    ensures var n := Do(s, a).gate;
            && s.gate.changed <= n.changed
            && (s.gate.changed == n.changed ==> s.gate.phase == n.phase && s.gate.activeTurns <= n.activeTurns)
  {
  }
}
