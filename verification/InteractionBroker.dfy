/** Many frontends may answer the same question of a turn; one answer wins
    (agent/codex_interaction_broker.go).  A submitter enters, perhaps waits for the attempt of another,
    responds outside the lock, and returns; the question may also be resolved from outside. */
module InteractionBroker {
  import opened Json

  datatype Phase = Pending | Submitting | Resolved | Terminal

  /** `attempt` is the channel of the attempt in progress; `closes` counts how often the resolved channel
      has been closed. */
  datatype Broker = Broker(phase: Phase, attempt: Option<nat>, closes: nat)

  datatype Result = Nil | Failed | ResolvedExternally | TurnTerminal | Cancelled

  predicate Settled(b: Broker) {
    b.phase.Resolved? || b.phase.Terminal?
  }

  function ResolutionError(b: Broker): Result {
    match b.phase
    case Resolved => ResolvedExternally
    case Terminal => TurnTerminal
    case _ => Nil
  }

  /** What a submitter does after looking at the broker. */
  datatype Entry = Leave(result: Result) | Wait(attempt: nat) | Respond(attempt: nat)

  function Enter(b: Broker, channel: nat): (Broker, Entry) {
    match b.phase
    case Resolved => (b, Leave(ResolvedExternally))
    case Terminal => (b, Leave(TurnTerminal))
    case Submitting => (b, Wait(if b.attempt.Some? then b.attempt.value else channel))
    case Pending => (b.(phase := Submitting, attempt := Some(channel)), Respond(channel))
  }

  /** The end of an attempt, and whether its channel is closed. */
  function Finish(b: Broker, channel: nat, ok: bool): (Broker, Result, bool) {
    var own := b.attempt == Some(channel);
    var settled :=
      if !b.phase.Submitting? then b
      else if ok then b.(phase := Resolved, closes := b.closes + 1)
      else b.(phase := Pending);
    var result :=
      if b.phase.Resolved? then ResolvedExternally else if b.phase.Terminal? then TurnTerminal
      else if ok then Nil else Failed;
    (if own then settled.(attempt := None) else settled, result, own)
  }

  function Resolve(b: Broker, terminal: bool): Broker {
    if Settled(b) then b
    else b.(phase := if terminal then Terminal else Resolved, closes := b.closes + 1)
  }

  // ---- Submitters ----

  datatype Stage = Waiting(attempt: nat) | Responding(attempt: nat) | Returned(result: Result)

  datatype System = System(broker: Broker, stages: map<nat, Stage>, channels: nat, closed: set<nat>, answers: nat)

  datatype Step =
    | DoEnter(who: nat)
    | DoCancel(who: nat)
    | DoSeeResolved(who: nat)
    | DoFinish(who: nat, ok: bool)
    | DoResolve(terminal: bool)

  function NewSystem(): System {
    System(Broker(Pending, None, 0), map[], 0, {}, 0)
  }

  predicate IsWaiting(s: System, p: nat) { p in s.stages && s.stages[p].Waiting? }
  predicate IsResponding(s: System, p: nat) { p in s.stages && s.stages[p].Responding? }

  /** Submitters arrive, or come back when the attempt they waited for is over. */
  predicate Enabled(s: System, a: Step) {
    match a
    case DoEnter(p) => p !in s.stages || (IsWaiting(s, p) && s.stages[p].attempt in s.closed)
    case DoCancel(p) => IsWaiting(s, p)
    case DoSeeResolved(p) => IsWaiting(s, p) && s.broker.closes > 0
    case DoFinish(p, _) => IsResponding(s, p)
    case DoResolve(_) => true
  }

  function Entered(s: System, p: nat): System {
    match Enter(s.broker, s.channels)
    case (b, Leave(r)) => s.(broker := b, stages := s.stages[p := Returned(r)])
    case (b, Wait(c)) => s.(broker := b, stages := s.stages[p := Waiting(c)])
    case (b, Respond(c)) => s.(broker := b, stages := s.stages[p := Responding(c)], channels := s.channels + 1)
  }

  function Finished(s: System, p: nat, ok: bool): System
    requires IsResponding(s, p)
  {
    var c := s.stages[p].attempt;
    var (b, r, closes) := Finish(s.broker, c, ok);
    System(b, s.stages[p := Returned(r)], s.channels, if closes then s.closed + {c} else s.closed,
           if ok then s.answers + 1 else s.answers)
  }

  function Do(s: System, a: Step): System
    requires Enabled(s, a)
  {
    match a
    case DoEnter(p) => Entered(s, p)
    case DoCancel(p) => s.(stages := s.stages[p := Returned(Cancelled)])
    case DoSeeResolved(p) => s.(stages := s.stages[p := Returned(ResolutionError(s.broker))])
    case DoFinish(p, ok) => Finished(s, p, ok)
    case DoResolve(terminal) => s.(broker := Resolve(s.broker, terminal))
  }

  ghost predicate Run(states: seq<System>, steps: seq<Step>) {
    && |states| == |steps| + 1 && states[0] == NewSystem()
    && forall n :: 0 <= n < |steps| ==> Enabled(states[n], steps[n]) && states[n + 1] == Do(states[n], steps[n])
  }

  // ---- What every run keeps ----

  /** The attempt in progress is that of the one submitter that is responding. */
  ghost predicate OneResponder(s: System) {
    && (forall p :: p in s.stages && s.stages[p].Responding? ==> s.broker.attempt == Some(s.stages[p].attempt))
    && (forall p, q :: p in s.stages && q in s.stages && s.stages[p].Responding? && s.stages[q].Responding? ==> p == q)
    && (s.broker.attempt.Some? ==> exists p :: p in s.stages && s.stages[p].Responding?)
    && (s.broker.phase.Pending? ==> s.broker.attempt.None?)
    && (s.broker.phase.Submitting? ==> s.broker.attempt.Some?)
  }

  /** An attempt's channel is open while it lasts, so it is closed once; who waits for an attempt waits for
      one that is going on or over. */
  ghost predicate Channels(s: System) {
    && (forall c :: c in s.closed ==> c < s.channels)
    && (s.broker.attempt.Some? ==> s.broker.attempt.value < s.channels && s.broker.attempt.value !in s.closed)
    && (forall p :: p in s.stages && s.stages[p].Waiting? ==>
          s.stages[p].attempt in s.closed || s.broker.attempt == Some(s.stages[p].attempt))
  }

  /** The resolved channel is closed once, exactly when the question is settled; an answer that got through
      settles it, nobody is responding any more, and at most one submitter returns without an error. */
  ghost predicate OneAnswer(s: System) {
    && s.broker.closes == (if Settled(s.broker) then 1 else 0)
    && s.answers <= 1
    && (s.answers == 1 ==> Settled(s.broker) && s.broker.attempt.None?)
    && (forall p :: p in s.stages && s.stages[p] == Returned(Nil) ==> s.answers == 1 && s.broker.phase.Resolved?)
    && (forall p, q :: p in s.stages && q in s.stages && s.stages[p] == s.stages[q] == Returned(Nil) ==> p == q)
  }

  ghost predicate Sound(s: System) {
    OneResponder(s) && Channels(s) && OneAnswer(s)
  }

  lemma {:induction false} EnterKeepsSound(s: System, p: nat)
    requires Sound(s) && Enabled(s, DoEnter(p))
    ensures Sound(Entered(s, p))
  {
    var n := Entered(s, p);
    if n.broker.attempt.Some? {
      if s.broker.attempt.Some? {
        var q :| q in s.stages && s.stages[q].Responding?;
        assert n.stages[q].Responding?;
      } else {
        assert n.stages[p].Responding?;
      }
    }
  }

  lemma {:induction false} FinishKeepsSound(s: System, p: nat, ok: bool)
    requires Sound(s) && IsResponding(s, p)
    ensures Sound(Finished(s, p, ok))
  {
  }

  lemma {:induction false} LeaveKeepsSound(s: System, p: nat, r: Result)
    requires Sound(s) && IsWaiting(s, p) && r != Nil
    ensures Sound(s.(stages := s.stages[p := Returned(r)]))
  {
    var n := s.(stages := s.stages[p := Returned(r)]);
    if s.broker.attempt.Some? {
      var q :| q in s.stages && s.stages[q].Responding?;
      assert n.stages[q].Responding?;
    }
  }

  lemma {:induction false} ResolveKeepsSound(s: System, terminal: bool)
    requires Sound(s)
    ensures Sound(s.(broker := Resolve(s.broker, terminal)))
  {
    var n := s.(broker := Resolve(s.broker, terminal));
    if s.broker.attempt.Some? {
      var q :| q in s.stages && s.stages[q].Responding?;
      assert n.stages[q].Responding?;
    }
  }

  /** A settled question stays settled, and nobody starts to respond to it. */
  lemma {:induction false} SettledIsFinal(s: System, a: Step)
    requires Enabled(s, a) && Settled(s.broker)
    ensures Do(s, a).broker.phase == s.broker.phase && Do(s, a).broker.closes == s.broker.closes
    ensures forall p :: IsResponding(Do(s, a), p) ==> IsResponding(s, p)
  {
  }

  /** Main theorem: for any number of submitters and resolutions, in every order. */
  lemma {:induction false} RunIsSound(states: seq<System>, steps: seq<Step>, n: nat)
    requires Run(states, steps) && n <= |steps|
    ensures Sound(states[n])
  {
    if n > 0 {
      RunIsSound(states, steps, n - 1);
      var s := states[n - 1];
      assert states[n - 1 + 1] == Do(s, steps[n - 1]);
      match steps[n - 1]
      case DoEnter(p) => EnterKeepsSound(s, p);
      case DoCancel(p) => LeaveKeepsSound(s, p, Cancelled);
      case DoSeeResolved(p) => LeaveKeepsSound(s, p, ResolutionError(s.broker));
      case DoFinish(p, ok) => FinishKeepsSound(s, p, ok);
      case DoResolve(terminal) => ResolveKeepsSound(s, terminal);
    }
  }

  /** Once settled, always settled: over the rest of a run nobody starts to respond. */
  lemma {:induction false} NobodyStartsLate(states: seq<System>, steps: seq<Step>, m: nat, n: nat, p: nat)
    requires Run(states, steps) && m <= n <= |steps| && Settled(states[m].broker) && IsResponding(states[n], p)
    ensures IsResponding(states[m], p) && Settled(states[n].broker)
    decreases n
  {
    if m < n {
      StaysSettled(states, steps, m, n - 1);
      SettledIsFinal(states[n - 1], steps[n - 1]);
      assert states[n - 1 + 1] == Do(states[n - 1], steps[n - 1]);
      NobodyStartsLate(states, steps, m, n - 1, p);
    }
  }

  lemma {:induction false} StaysSettled(states: seq<System>, steps: seq<Step>, m: nat, n: nat)
    requires Run(states, steps) && m <= n <= |steps| && Settled(states[m].broker)
    ensures Settled(states[n].broker)
    decreases n
  {
    if m < n {
      StaysSettled(states, steps, m, n - 1);
      SettledIsFinal(states[n - 1], steps[n - 1]);
      assert states[n - 1 + 1] == Do(states[n - 1], steps[n - 1]);
    }
  }

  // ---- The broker as an object ----

  class Channel {
    var closed: bool

    constructor ()
      ensures !closed
    {
      closed := false;
    }

    /** Closing a closed channel would panic. */
    method Close()
      requires !closed
      modifies this
      ensures closed
    {
      closed := true;
    }
  }

  class Question {
    var phase: Phase
    var attemptDone: Channel?
    const resolved: Channel
    ghost var attempts: nat

    /** The resolved channel is closed exactly when the question is settled. */
    ghost predicate Valid()
      reads this, resolved, attemptDone
    {
      && (resolved.closed <==> phase.Resolved? || phase.Terminal?)
      && (phase.Submitting? ==> attemptDone != null)
      && (phase.Pending? ==> attemptDone == null)
      && (attemptDone != null ==> attemptDone != resolved && !attemptDone.closed && attempts > 0)
    }

    /** The broker, with attempts numbered as they begin. */
    ghost function Value(): (b: Broker)
      reads this, resolved
    {
      Broker(phase, if attemptDone != null && attempts > 0 then Some(attempts - 1) else None, if resolved.closed then 1 else 0)
    }

    constructor ()
      ensures Valid() && fresh(resolved) && Value() == Broker(Pending, None, 0)
    {
      phase, attemptDone, attempts := Pending, null, 0;
      resolved := new Channel();
    }

    /** Looks at the question and claims it for an attempt of one's own if it is free. */
    method Begin() returns (own: Channel?, ghost entry: Entry)
      requires Valid()
      modifies this
      ensures Valid() && (Value(), entry) == Enter(old(Value()), old(attempts))
      ensures entry.Respond? <==> own != null
      ensures own == null ==> attemptDone == old(attemptDone)
      ensures own != null ==> fresh(own) && attemptDone == own && phase.Submitting?
    {
      own, entry := null, Enter(Value(), attempts).1;
      if phase.Pending? {
        own := new Channel();
        phase, attemptDone, attempts := Submitting, own, attempts + 1;
      }
    }

    /** Records the outcome of one's own attempt; each channel is closed once. */
    method Conclude(own: Channel, ok: bool) returns (result: Result)
      requires Valid() && attemptDone == own
      modifies this, resolved, own
      ensures Valid() && own.closed && attemptDone == null
      ensures (Value(), result, true) == Finish(old(Value()), old(attempts) - 1, ok)
      ensures result == Nil <==> ok && old(phase).Submitting?
    {
      result := if ok then Nil else Failed;
      if phase.Submitting? {
        if ok {
          phase := Resolved;
          resolved.Close();
        } else {
          phase := Pending;
        }
      } else if phase.Resolved? {
        result := ResolvedExternally;
      } else if phase.Terminal? {
        result := TurnTerminal;
      }
      own.Close();
      attemptDone := null;
    }

    method Settle(terminal: bool)
      requires Valid()
      modifies this, resolved
      ensures Valid() && attemptDone == old(attemptDone)
      ensures Value() == Resolve(old(Value()), terminal)
    {
      if phase.Resolved? || phase.Terminal? {
        return;
      }
      phase := if terminal then Terminal else Resolved;
      resolved.Close();
    }
  }
}
