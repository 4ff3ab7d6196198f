/** The gate in its own form: an object whose methods are the critical sections, proved against the step
    functions of Gate. */
module AppServerGate {
  import opened Json
  import opened Gate

  /** The answer of one look at the gate: a permit, a reason to wait, or the recorded failure. */
  datatype Admission = Granted(permit: Permit) | Wait(seen: nat) | Unavailable(cause: Option<string>)

  class Permit {
    const gate: ServerGate
    const generation: nat
    var released: bool

    constructor (gate: ServerGate, generation: nat)
      ensures this.gate == gate && this.generation == generation && !released
    {
      this.gate, this.generation, released := gate, generation, false;
    }

    /** Only the first release counts. */
    method Release()
      modifies this, gate
      ensures released
      ensures gate.Model() == if old(released) then old(gate.Model())
                              else Notify(old(gate.Model()).(activeTurns := old(gate.activeTurns) - 1))
    {
      if !released {
        released := true;
        gate.activeTurns := gate.activeTurns - 1;
        gate.NotifyAll();
      }
    }
  }

  class ServerGate {
    var phase: Phase
    var generation: nat
    var activeTurns: int
    var failure: Option<string>
    var changed: nat

    ghost function Model(): GateState
      reads this
    {
      GateState(phase, generation, activeTurns, failure, changed)
    }

    constructor ()
      ensures Model() == NewGate()
    {
      phase, generation, activeTurns, failure, changed := Running, 1, 0, None, 0;
    }

    method NotifyAll()
      modifies `changed
      ensures Model() == Notify(old(Model()))
    {
      changed := changed + 1;
    }

    /** One iteration of the admission loop. */
    method TryAcquire() returns (a: Admission)
      modifies this
      ensures a.Granted? == old(phase).Running? && a.Unavailable? == old(phase).Failed?
      ensures a.Granted? ==> fresh(a.permit) && a.permit.gate == this && !a.permit.released &&
                             a.permit.generation == old(generation)
      ensures a.Wait? ==> a.seen == changed
      ensures a.Unavailable? ==> a.cause == failure
      ensures Model() == if a.Granted? then old(Model()).(activeTurns := old(activeTurns) + 1) else old(Model())
    {
      if phase.Running? {
        activeTurns := activeTurns + 1;
        var permit := new Permit(this, generation);
        return Granted(permit);
      }
      if phase.Failed? {
        return Unavailable(failure);
      }
      return Wait(changed);
    }

    method TryBeginExclusive() returns (ok: bool)
      modifies this
      ensures ok == BeginExclusive(old(Model())).Some?
      ensures Model() == if ok then BeginExclusive(old(Model())).value else old(Model())
    {
      if phase.Failed? || !phase.Running? || activeTurns != 0 {
        return false;
      }
      phase := Draining;
      NotifyAll();
      return true;
    }

    method TryBeginForcedExclusive() returns (ok: bool)
      modifies this
      ensures ok == BeginForcedExclusive(old(Model())).Some?
      ensures Model() == if ok then BeginForcedExclusive(old(Model())).value else old(Model())
    {
      if !phase.Failed? && !phase.Running? {
        return false;
      }
      phase := Draining;
      NotifyAll();
      return true;
    }

    method EndExclusiveWith(committed: bool, available: bool)
      modifies this
      ensures Model() == FinishExclusive(old(Model()), committed, available)
    {
      if !available || failure.Some? {
        phase := Failed;
      } else {
        if committed {
          generation := generation + 1;
        }
        failure := None;
        phase := Running;
      }
      NotifyAll();
    }

    method FailWith(cause: string)
      modifies this
      ensures Model() == Fail(old(Model()), cause)
    {
      failure, phase := Some(cause), Failed;
      NotifyAll();
    }

    method TryBeginDrain() returns (ok: bool)
      modifies this
      ensures ok == BeginDrain(old(Model())).Some?
      ensures Model() == if ok then BeginDrain(old(Model())).value else old(Model())
    {
      ok := phase.Running?;
      if ok {
        phase := Draining;
        NotifyAll();
      }
    }

    method SetRestarting()
      modifies this
      ensures Model() == MarkRestarting(old(Model()))
    {
      phase := Restarting;
      NotifyAll();
    }

    method CancelDrain()
      modifies this
      ensures Model() == AbortDrain(old(Model()))
    {
      failure, phase := None, Running;
      NotifyAll();
    }

    method EndRestart(restarted: bool)
      modifies this
      ensures Model() == FinishRestart(old(Model()), restarted)
      ensures restarted ==> phase.Running? && failure == None && generation == old(generation) + 1
      ensures !restarted ==> phase.Failed? && failure == old(failure) && generation == old(generation)
      ensures activeTurns == old(activeTurns)
    {
      if restarted {
        generation, failure, phase := generation + 1, None, Running;
      } else {
        phase := Failed;
      }
      NotifyAll();
    }
  }
}
