/** What each step of the interaction broker does, and that an open question can always still be answered
    (agent/codex_interaction_broker.go). */
module BrokerEffects {
  import opened Json
  import opened InteractionBroker

  // ---- Single steps ----

  /** Who enters claims a pending question with a channel of its own, waits for the attempt in progress, or is
      told that the question is settled; only a claim changes the broker. */
  lemma {:induction false} EnterExactly(s: System, p: nat)
    requires Sound(s) && Enabled(s, DoEnter(p))
    ensures var n := Do(s, DoEnter(p));
            && (forall q :: q != p ==> (q in n.stages <==> q in s.stages) && (q in s.stages ==> n.stages[q] == s.stages[q]))
            && p in n.stages && n.closed == s.closed && n.answers == s.answers
            && match s.broker.phase
               case Pending =>
                 n.broker == Broker(Submitting, Some(s.channels), s.broker.closes) && n.stages[p] == Responding(s.channels) && n.channels == s.channels + 1
               case Submitting =>
                 s.broker.attempt.Some? && n.stages[p] == Waiting(s.broker.attempt.value) && n.broker == s.broker && n.channels == s.channels
               case Resolved => n.stages[p] == Returned(ResolvedExternally) && n.broker == s.broker && n.channels == s.channels
               case Terminal => n.stages[p] == Returned(TurnTerminal) && n.broker == s.broker && n.channels == s.channels
  {
  }

  /** An attempt that ends wakes those who wait for it.  If nobody settled the question meanwhile, a success
      settles it as resolved and closes the resolved channel, and a failure leaves it pending with the channel
      open; otherwise the submitter is told how it was settled. */
  lemma {:induction false} FinishExactly(s: System, p: nat, ok: bool)
    requires Sound(s) && IsResponding(s, p)
    ensures var n := Do(s, DoFinish(p, ok));
            && n.broker.attempt.None? && n.closed == s.closed + {s.stages[p].attempt} && n.channels == s.channels
            && n.stages == s.stages[p := n.stages[p]] && n.answers == s.answers + (if ok then 1 else 0)
            && match s.broker.phase
               case Submitting =>
                 if ok then n.broker.phase.Resolved? && n.broker.closes == s.broker.closes + 1 && n.stages[p] == Returned(Nil)
                 else n.broker.phase.Pending? && n.broker.closes == s.broker.closes && n.stages[p] == Returned(Failed)
               case Resolved => n.broker.phase.Resolved? && n.broker.closes == s.broker.closes && n.stages[p] == Returned(ResolvedExternally)
               case Terminal => n.broker.phase.Terminal? && n.broker.closes == s.broker.closes && n.stages[p] == Returned(TurnTerminal)
               case Pending => false
  {
  }

  /** A resolution from outside settles an open question and closes the resolved channel, and does nothing to a
      settled one; a submitter who waits may give up, or leaves with what the resolution says. */
  lemma {:induction false} ResolveExactly(s: System, terminal: bool)
    ensures var n := Do(s, DoResolve(terminal));
            && n == s.(broker := n.broker) && n.broker.attempt == s.broker.attempt
            && (if s.broker.phase.Resolved? || s.broker.phase.Terminal? then n == s
                else n.broker.closes == s.broker.closes + 1 && (if terminal then n.broker.phase.Terminal? else n.broker.phase.Resolved?))
  {
  }

  lemma {:induction false} WaitersLeave(s: System, p: nat)
    requires Sound(s) && IsWaiting(s, p)
    ensures Do(s, DoCancel(p)) == s.(stages := s.stages[p := Returned(Cancelled)])
    ensures Enabled(s, DoSeeResolved(p)) <==> s.broker.phase.Resolved? || s.broker.phase.Terminal?
    ensures s.broker.phase.Resolved? ==> Do(s, DoSeeResolved(p)) == s.(stages := s.stages[p := Returned(ResolvedExternally)])
    ensures s.broker.phase.Terminal? ==> Do(s, DoSeeResolved(p)) == s.(stages := s.stages[p := Returned(TurnTerminal)])
  {
  }

  // ---- An open question stays answerable ----

  /** After a failed attempt that nobody pre-empted, whoever comes next, or comes back from waiting for it, gets to
      respond. */
  lemma {:induction false} FailureLeavesOpen(s: System, p: nat, q: nat)
    requires Sound(s) && IsResponding(s, p) && s.broker.phase.Submitting? && p != q
    requires q !in s.stages || s.stages[q] == Waiting(s.stages[p].attempt)
    ensures var n := Do(s, DoFinish(p, false));
            && n.broker.closes == 0 && n.stages[p] == Returned(Failed)
            && Enabled(n, DoEnter(q)) && IsResponding(Do(n, DoEnter(q)), q)
  {
    FinishExactly(s, p, false);
    FinishKeepsSound(s, p, false);
    EnterExactly(Do(s, DoFinish(p, false)), q);
  }

  /** A continuation of a state. */
  ghost predicate Path(states: seq<System>, steps: seq<Step>) {
    && |states| == |steps| + 1
    && forall n :: 0 <= n < |steps| ==> Enabled(states[n], steps[n]) && states[n + 1] == Do(states[n], steps[n])
  }

  /** Main theorem: from every state of every run in which the question is not settled, whatever attempts have
      failed before, a newcomer can still answer it and return without an error. */
  lemma {:induction false} OpenStaysAnswerable(s: System, q: nat) returns (states: seq<System>, steps: seq<Step>)
    requires Sound(s) && !s.broker.phase.Resolved? && !s.broker.phase.Terminal? && q !in s.stages
    ensures Path(states, steps) && states[0] == s && q in states[|steps|].stages
    ensures states[|steps|].stages[q] == Returned(Nil) && states[|steps|].broker.phase.Resolved?
  {
    if s.broker.phase.Submitting? {
      var p :| p in s.stages && s.stages[p].Responding?;
      var a := Do(s, DoFinish(p, false));
      FinishExactly(s, p, false);
      FinishKeepsSound(s, p, false);
      var b := Do(a, DoEnter(q));
      EnterExactly(a, q);
      EnterKeepsSound(a, q);
      FinishExactly(b, q, true);
      states, steps := [s, a, b, Do(b, DoFinish(q, true))], [DoFinish(p, false), DoEnter(q), DoFinish(q, true)];
    } else {
      var b := Do(s, DoEnter(q));
      EnterExactly(s, q);
      EnterKeepsSound(s, q);
      FinishExactly(b, q, true);
      states, steps := [s, b, Do(b, DoFinish(q, true))], [DoEnter(q), DoFinish(q, true)];
    }
  }
}
