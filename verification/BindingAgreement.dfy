/** The two route stores: a thread commit writes both or neither, routes held in both name one thread, and
    no route leads to an archived thread. */
module BindingAgreement {
  import opened Bindings
  import opened BindingSafety

  /** Routes held in both stores name the same thread. */
  ghost predicate Agree(s: State) {
    forall c :: Route(s.local, c) != NO_THREAD && Route(s.owner, c) != NO_THREAD ==> Route(s.local, c) == Route(s.owner, c)
  }

  /** Which intents a commit may use: a thread commit never takes an observed intent and skips the registry
      only for a current one; a runtime-only commit takes current and observed intents. */
  ghost predicate Proper(steps: seq<Step>, n: nat)
    requires n < |steps|
  {
    var a := steps[n];
    && (a.DoCommit? && a.from < n ==> !steps[a.from].DoObserve? && (a.how.NoOwner? ==> steps[a.from].DoCurrent?))
    && (a.DoRuntimeCommit? && a.from < n ==> steps[a.from].DoCurrent? || steps[a.from].DoObserve?)
  }

  ghost predicate ProperRun(states: seq<State>, steps: seq<Step>) {
    Run(states, steps) && Agree(states[0]) && forall n :: 0 <= n < |steps| ==> Proper(steps, n)
  }

  // ---- Both stores or neither ----

  /** A thread commit that succeeds leaves both stores routing the conversation to the thread, except that a
      commit without a registry write needs the registry to hold the route already. */
  lemma {:induction false} CommitWritesBoth(s: State, i: Intent, how: OwnerCommit)
    requires CommitThread(s, i, how).Some?
    ensures var t := CommitThread(s, i, how).value;
            && Route(t.local, i.conv) == i.thread
            && (Route(t.owner, i.conv) == i.thread <==> !how.NoOwner? || Route(s.owner, i.conv) == i.thread)
            && (how.NoOwner? ==> Route(t.owner, i.conv) == Route(s.owner, i.conv))
            && forall c :: c != i.conv ==> Route(t.local, c) == Route(s.local, c) && Route(t.owner, c) == Route(s.owner, c)
  {
  }

  /** A runtime-only commit keeps agreement exactly when the agent's own store does not contradict it. */
  lemma {:induction false} RuntimeCommitAgreesExactly(s: State, i: Intent, how: OwnerCommit)
    requires Agree(s) && i.thread != NO_THREAD && !how.NoOwner? && CommitRuntime(s, i, how).Some?
    ensures Agree(CommitRuntime(s, i, how).value) <==> Route(s.local, i.conv) in {NO_THREAD, i.thread}
  {
    var t := CommitRuntime(s, i, how).value;
    assert Route(t.local, i.conv) == Route(s.local, i.conv) && Route(t.owner, i.conv) == i.thread;
    forall c | c != i.conv
      ensures Route(t.local, c) == Route(s.local, c) && Route(t.owner, c) == Route(s.owner, c)
    {
    }
  }

  /** A begun intent used for a runtime-only commit makes the stores disagree (as
      agent/codex_runtime_probe.go:61 may do). */
  lemma BegunRuntimeCommitDisagrees()
    ensures var c, t, u := Conv("c"), Thread("t"), Thread("u");
            var s := State(Store(map[c := t], map[], 0), Store(map[c := t], map[], 0), map[], 0, {});
            var (b, i) := Begin(s, c, u);
            Agree(s) && CommitRuntime(b, i, Bind).Some? && !Agree(CommitRuntime(b, i, Bind).value)
  {
    var c, t, u := Conv("c"), Thread("t"), Thread("u");
    assert "t" != "u";
    var s := State(Store(map[c := t], map[], 0), Store(map[c := t], map[], 0), map[], 0, {});
    var (b, i) := Begin(s, c, u);
    var r := CommitRuntime(b, i, Bind).value;
    assert Route(r.local, c) == t && Route(r.owner, c) == u;
  }

  // ---- A first observation freezes the local route ----

  predicate FirstObservation(s: State, a: Step) {
    a.DoObserve? && Observe(s, a.conv, a.thread).1.Some? && Observe(s, a.conv, a.thread).1.value.expectedOwner == NO_THREAD
  }

  lemma {:induction false} FirstObservationFacts(s: State, a: Step)
    requires Sane(s) && FirstObservation(s, a)
    ensures var i := Issue(s, a).value;
            && i.conv == a.conv && i.thread == a.thread
            && Route(s.local, a.conv) in {NO_THREAD, a.thread} && a.conv != NO_CONV
            && i.localRev == s.local.counter + 1 == IssueState(s, a).local.counter
            && i.localRev == Rev(IssueState(s, a).local, a.conv)
            && IssueState(s, a).local.routes == s.local.routes
  {
  }

  lemma {:induction false} FreshIntent(s: State, a: Step)
    requires Sane(s) && (a.DoBegin? || a.DoClear?)
    ensures Issue(s, a).Some? && (Issue(s, a).value.localRev == 0 || Issue(s, a).value.localRev == s.local.counter + 1)
    ensures Issue(s, a).value.localRev <= IssueState(s, a).local.counter
  {
  }

  lemma {:induction false} CurrentIntent(s: State, a: Step)
    requires a.DoCurrent? && Issue(s, a).Some?
    ensures var i := Issue(s, a).value; i.thread == i.expectedLocal == i.expectedOwner == a.thread != NO_THREAD
  {
  }

  /** What step `f` hands out is a revision of its own. */
  lemma {:induction false} DistinctRevisions(states: seq<State>, steps: seq<Step>, f: nat, g: nat)
    requires Run(states, steps) && f < |steps| && g < |steps| && f != g
    requires FirstObservation(states[f], steps[f]) && (steps[g].DoBegin? || steps[g].DoClear?)
    ensures Issue(states[g], steps[g]).value.localRev != Issue(states[f], steps[f]).value.localRev
  {
    RunGrows(states, steps, f, f);
    RunGrows(states, steps, g, g);
    FirstObservationFacts(states[f], steps[f]);
    FreshIntent(states[g], steps[g]);
    assert states[f + 1] == Do(states, steps, f) == IssueState(states[f], steps[f]);
    assert states[g + 1] == Do(states, steps, g) == IssueState(states[g], steps[g]);
    if f < g {
      RunGrows(states, steps, f + 1, g);
    } else {
      RunGrows(states, steps, g + 1, f);
    }
  }

  /** Steps other than a thread commit keep a local route or give it a new revision. */
  lemma {:induction false} OthersKeepLocal(states: seq<State>, steps: seq<Step>, n: nat, c: Conv)
    requires |states| > |steps| > n && Sane(states[n]) && !steps[n].DoCommit?
    requires Rev(Do(states, steps, n).local, c) == Rev(states[n].local, c) && c != NO_CONV
    ensures Route(Do(states, steps, n).local, c) == Route(states[n].local, c)
  {
    match steps[n]
    case DoArchive(t, l, o) =>
      if t != NO_THREAD {
        ForgetKeeps(states[n].local, l, c);
      }
    case DoRuntimeCommit(_, _) => RuntimeKeepsLocal(states, steps, n);
    case _ =>
  }

  lemma {:induction false} RuntimeKeepsLocal(states: seq<State>, steps: seq<Step>, n: nat)
    requires |states| > |steps| > n && steps[n].DoRuntimeCommit?
    ensures Do(states, steps, n).local == states[n].local
  {
  }

  lemma {:induction false} ForgetKeeps(s: Store, order: seq<Conv>, c: Conv)
    requires Bounded(s) && c != NO_CONV && Rev(Forget(s, order), c) == Rev(s, c)
    ensures Route(Forget(s, order), c) == Route(s, c)
    decreases |order|
  {
    if order != [] {
      var n := |order| - 1;
      ForgetGrows(s, order[..n]);
      ForgetKeeps(s, order[..n], c);
    }
  }

  /** A thread commit at the observed revision re-installs the route that is already there. */
  lemma {:induction false} CommitKeepsObserved(states: seq<State>, steps: seq<Step>, f: nat, n: nat)
    requires ProperRun(states, steps) && f < n < |steps| && FirstObservation(states[f], steps[f]) && steps[n].DoCommit?
    requires Rev(states[n].local, steps[f].conv) == Issue(states[f], steps[f]).value.localRev
    ensures Route(Do(states, steps, n).local, steps[f].conv) == Route(states[n].local, steps[f].conv)
  {
    if Succeeds(states, steps, n) {
      var g := steps[n].from;
      assert Proper(steps, n);
      if steps[g].DoBegin? || steps[g].DoClear? {
        DistinctRevisions(states, steps, f, g);
      } else {
        CurrentIntent(states[g], steps[g]);
      }
    }
  }

  /** While the revision of a first observation stands, so does the local route it saw. */
  lemma {:induction false} ObservedLocalStands(states: seq<State>, steps: seq<Step>, f: nat, n: nat)
    requires ProperRun(states, steps) && f < n <= |steps| && FirstObservation(states[f], steps[f])
    requires Rev(states[n].local, steps[f].conv) == Issue(states[f], steps[f]).value.localRev
    ensures Route(states[n].local, steps[f].conv) == Route(states[f].local, steps[f].conv)
    decreases n
  {
    var c := steps[f].conv;
    RunGrows(states, steps, f, f);
    FirstObservationFacts(states[f], steps[f]);
    assert states[f + 1] == Do(states, steps, f) == IssueState(states[f], steps[f]);
    if f + 1 < n {
      var m := n - 1;
      RunGrows(states, steps, f + 1, m);
      RunGrows(states, steps, m, n);
      ObservedLocalStands(states, steps, f, m);
      assert states[m + 1] == Do(states, steps, m);
      if steps[m].DoCommit? {
        CommitKeepsObserved(states, steps, f, m);
      } else {
        OthersKeepLocal(states, steps, m, c);
      }
    }
  }

  // ---- Agreement over runs ----

  /** A thread commit keeps agreement exactly when it writes the registry or the registry does not contradict
      it. */
  lemma {:induction false} ThreadCommitAgreesExactly(s: State, i: Intent, how: OwnerCommit)
    requires Agree(s) && i.thread != NO_THREAD && CommitThread(s, i, how).Some?
    ensures Agree(CommitThread(s, i, how).value) <==> !how.NoOwner? || Route(s.owner, i.conv) in {NO_THREAD, i.thread}
  {
    CommitWritesBoth(s, i, how);
    var t := CommitThread(s, i, how).value;
    assert Route(t.local, i.conv) == i.thread;
  }

  lemma {:induction false} ThreadCommitAgrees(states: seq<State>, steps: seq<Step>, n: nat)
    requires Run(states, steps) && n < |steps| && Proper(steps, n) && steps[n].DoCommit? && Agree(states[n])
    ensures Agree(Do(states, steps, n))
  {
    if Succeeds(states, steps, n) {
      var g := steps[n].from;
      if steps[n].how.NoOwner? {
        CurrentIntent(states[g], steps[g]);
      }
      CommitWritesBoth(states[n], Committed(states, steps, n).value, steps[n].how);
    }
  }

  lemma {:induction false} ObserveIntent(s: State, a: Step)
    requires a.DoObserve? && Issue(s, a).Some?
    ensures var i := Issue(s, a).value;
            i.thread == a.thread != NO_THREAD && i.conv == a.conv && i.expectedOwner in {NO_THREAD, a.thread}
  {
  }

  /** A runtime-only commit of a proper run writes what the local store says, if it says anything. */
  lemma {:induction false} RuntimeCommitFits(states: seq<State>, steps: seq<Step>, n: nat)
    requires ProperRun(states, steps) && n < |steps| && steps[n].DoRuntimeCommit? && Succeeds(states, steps, n)
    requires Agree(states[n])
    ensures var i := Committed(states, steps, n).value;
            i.thread != NO_THREAD && Route(states[n].local, i.conv) in {NO_THREAD, i.thread}
  {
    var g := steps[n].from;
    var i := Committed(states, steps, n).value;
    assert Proper(steps, n);
    if steps[g].DoCurrent? {
      CurrentIntent(states[g], steps[g]);
    } else {
      ObserveIntent(states[g], steps[g]);
      if FirstObservation(states[g], steps[g]) {
        RunGrows(states, steps, g, g);
        FirstObservationFacts(states[g], steps[g]);
        ObservedLocalStands(states, steps, g, n);
      } else {
        assert Route(states[n].owner, i.conv) == i.thread;
      }
    }
  }

  lemma {:induction false} RuntimeCommitAgrees(states: seq<State>, steps: seq<Step>, n: nat)
    requires ProperRun(states, steps) && n < |steps| && steps[n].DoRuntimeCommit? && Agree(states[n])
    ensures Agree(Do(states, steps, n))
  {
    if Succeeds(states, steps, n) {
      var i := Committed(states, steps, n).value;
      RuntimeCommitFits(states, steps, n);
      if !steps[n].how.NoOwner? {
        RuntimeCommitAgreesExactly(states[n], i, steps[n].how);
      }
    }
  }

  /** `b` holds no route that `a` did not hold. */
  ghost predicate Fewer(a: Store, b: Store) {
    forall c :: Route(b, c) in {NO_THREAD, Route(a, c)}
  }

  lemma {:induction false} ForgetOnlyRemoves(s: Store, order: seq<Conv>)
    ensures Fewer(s, Forget(s, order))
    decreases |order|
  {
    if order != [] {
      ForgetOnlyRemoves(s, order[..|order| - 1]);
    }
  }

  lemma {:induction false} OthersAddNoRoute(states: seq<State>, steps: seq<Step>, n: nat)
    requires |states| > |steps| > n && !steps[n].DoCommit? && !steps[n].DoRuntimeCommit?
    ensures Fewer(states[n].local, Do(states, steps, n).local) && Fewer(states[n].owner, Do(states, steps, n).owner)
  {
    match steps[n]
    case DoArchive(t, l, o) =>
      ForgetOnlyRemoves(states[n].local, l);
      ForgetOnlyRemoves(states[n].owner, o);
    case _ =>
  }

  /** A successful commit that writes one store against a route of the other. */
  predicate Contradicts(states: seq<State>, steps: seq<Step>, n: nat)
    requires |states| > |steps| > n
  {
    Succeeds(states, steps, n) &&
    var i, s := Committed(states, steps, n).value, states[n];
    i.thread != NO_THREAD &&
    if steps[n].DoCommit? then steps[n].how.NoOwner? && Route(s.owner, i.conv) !in {NO_THREAD, i.thread}
    else !steps[n].how.NoOwner? && Route(s.local, i.conv) !in {NO_THREAD, i.thread}
  }

  lemma {:induction false} EmptyCommitAgrees(s: State, a: Step, i: Intent)
    requires (a.DoCommit? || a.DoRuntimeCommit?) && CommitResult(s, a, i).Some? && Agree(s) && i.thread == NO_THREAD
    ensures Agree(CommitResult(s, a, i).value)
  {
    var t := CommitResult(s, a, i).value;
    forall c ensures Route(t.local, c) in {NO_THREAD, Route(s.local, c)} && Route(t.owner, c) in {NO_THREAD, Route(s.owner, c)} {
    }
  }

  lemma {:induction false} CommitAgreesExactly(states: seq<State>, steps: seq<Step>, n: nat)
    requires |states| > |steps| > n && Agree(states[n]) && (steps[n].DoCommit? || steps[n].DoRuntimeCommit?)
    ensures Agree(Do(states, steps, n)) <==> !Contradicts(states, steps, n)
  {
    if Succeeds(states, steps, n) {
      var s, a, i := states[n], steps[n], Committed(states, steps, n).value;
      if i.thread == NO_THREAD {
        EmptyCommitAgrees(s, a, i);
      } else if a.DoCommit? {
        ThreadCommitAgreesExactly(s, i, a.how);
      } else if !a.how.NoOwner? {
        RuntimeCommitAgreesExactly(s, i, a.how);
      }
    }
  }

  lemma {:induction false} StepAgreesExactly(states: seq<State>, steps: seq<Step>, n: nat)
    requires |states| > |steps| > n && Agree(states[n])
    ensures Agree(Do(states, steps, n)) <==> !Contradicts(states, steps, n)
  {
    if steps[n].DoCommit? || steps[n].DoRuntimeCommit? {
      CommitAgreesExactly(states, steps, n);
    } else {
      OthersAddNoRoute(states, steps, n);
    }
  }

  lemma {:induction false} StaysAgreed(states: seq<State>, steps: seq<Step>, n: nat)
    requires Run(states, steps) && Agree(states[0]) && n <= |steps|
    requires forall k :: 0 <= k < n ==> !Contradicts(states, steps, k)
    ensures Agree(states[n])
    decreases n
  {
    if n > 0 {
      StaysAgreed(states, steps, n - 1);
      StepAgreesExactly(states, steps, n - 1);
      assert states[n - 1 + 1] == Do(states, steps, n - 1);
    }
  }

  /** Main theorem, second part: in every interleaving from stores that agree, whatever intents are committed
      how, the stores agree throughout if and only if no commit writes one store against a route of the
      other. */
  lemma {:induction false} RunAgreesExactly(states: seq<State>, steps: seq<Step>)
    requires Run(states, steps) && Agree(states[0])
    ensures (forall n :: 0 <= n <= |steps| ==> Agree(states[n])) <==>
              forall n :: 0 <= n < |steps| ==> !Contradicts(states, steps, n)
  {
    if forall n :: 0 <= n <= |steps| ==> Agree(states[n]) {
      forall n | 0 <= n < |steps| ensures !Contradicts(states, steps, n) {
        StepAgreesExactly(states, steps, n);
        assert Agree(states[n + 1]) && states[n + 1] == Do(states, steps, n);
      }
    }
    if forall n :: 0 <= n < |steps| ==> !Contradicts(states, steps, n) {
      forall n | 0 <= n <= |steps| ensures Agree(states[n]) {
        StaysAgreed(states, steps, n);
      }
    }
  }

  /** In particular in every interleaving in which commits take the intents meant for them. */
  lemma {:induction false} RunAgrees(states: seq<State>, steps: seq<Step>, n: nat)
    requires ProperRun(states, steps) && n <= |steps|
    ensures Agree(states[n])
    decreases n
  {
    if n > 0 {
      var m := n - 1;
      RunAgrees(states, steps, m);
      assert states[m + 1] == Do(states, steps, m) && Proper(steps, m);
      if steps[m].DoCommit? {
        ThreadCommitAgrees(states, steps, m);
      } else if steps[m].DoRuntimeCommit? {
        RuntimeCommitAgrees(states, steps, m);
      } else {
        OthersAddNoRoute(states, steps, m);
      }
    }
  }

  // ---- Archived threads ----

  /** No route of either store leads to an archived thread. */
  ghost predicate NoArchivedRoute(s: State) {
    forall c :: !Life(s, Route(s.local, c)).archived && !Life(s, Route(s.owner, c)).archived
  }

  /** Archive steps visit exactly the conversations that are routed to the thread. */
  ghost predicate FullVisit(s: State, a: Step) {
    a.DoArchive? && a.thread != NO_THREAD ==> Visits(s.local, a.thread, a.localOrder) && Visits(s.owner, a.thread, a.ownerOrder)
  }

  lemma {:induction false} ForgetUnroutes(s: Store, order: seq<Conv>, c: Conv)
    ensures Route(Forget(s, order), c) == if c in order then NO_THREAD else Route(s, c)
    decreases |order|
  {
    if order != [] {
      var n := |order| - 1;
      ForgetUnroutes(s, order[..n], c);
      assert order == order[..n] + [order[n]];
    }
  }

  lemma {:induction false} ArchiveUnroutes(s: State, t: Thread, l: seq<Conv>, o: seq<Conv>)
    requires t != NO_THREAD && Visits(s.local, t, l) && Visits(s.owner, t, o)
    ensures var n := Archive(s, t, l, o);
            forall c :: Route(n.local, c) == (if Route(s.local, c) == t then NO_THREAD else Route(s.local, c))
                     && Route(n.owner, c) == (if Route(s.owner, c) == t then NO_THREAD else Route(s.owner, c))
  {
    forall c
      ensures Route(Forget(s.local, l), c) == (if Route(s.local, c) == t then NO_THREAD else Route(s.local, c))
      ensures Route(Forget(s.owner, o), c) == (if Route(s.owner, c) == t then NO_THREAD else Route(s.owner, c))
    {
      ForgetUnroutes(s.local, l, c);
      ForgetUnroutes(s.owner, o, c);
    }
  }

  lemma {:induction false} CommitAvoidsArchived(states: seq<State>, steps: seq<Step>, n: nat)
    requires |states| > |steps| > n && Sane(states[n]) && NoArchivedRoute(states[n])
    requires steps[n].DoCommit? || steps[n].DoRuntimeCommit?
    ensures NoArchivedRoute(Do(states, steps, n))
  {
    if Succeeds(states, steps, n) {
      var i := Committed(states, steps, n).value;
      CommitSetsRoutes(states[n], steps[n], i);
      var s, t := states[n], Do(states, steps, n);
      forall c
        ensures Route(t.local, c) in {i.thread, Route(s.local, c)} && Route(t.owner, c) in {i.thread, Route(s.owner, c)}
      {
      }
      assert !Life(s, i.thread).archived;
    }
  }

  lemma {:induction false} FewerAvoidArchived(s: State, n: State)
    requires NoArchivedRoute(s) && BoundedLives(s) && n.lives == s.lives
    requires Fewer(s.local, n.local) && Fewer(s.owner, n.owner)
    ensures NoArchivedRoute(n)
  {
    forall c ensures !Life(n, Route(n.local, c)).archived && !Life(n, Route(n.owner, c)).archived {
      assert Route(n.local, c) in {NO_THREAD, Route(s.local, c)};
      assert Route(n.owner, c) in {NO_THREAD, Route(s.owner, c)};
    }
  }

  lemma {:induction false} ArchiveAvoidsArchived(s: State, t: Thread, l: seq<Conv>, o: seq<Conv>)
    requires BoundedLives(s) && NoArchivedRoute(s)
    requires t != NO_THREAD ==> Visits(s.local, t, l) && Visits(s.owner, t, o)
    ensures NoArchivedRoute(Archive(s, t, l, o))
  {
    if t != NO_THREAD {
      ArchiveUnroutes(s, t, l, o);
    }
  }

  lemma {:induction false} OthersAvoidArchived(states: seq<State>, steps: seq<Step>, n: nat)
    requires |states| > |steps| > n && Sane(states[n]) && NoArchivedRoute(states[n]) && FullVisit(states[n], steps[n])
    requires !steps[n].DoCommit? && !steps[n].DoRuntimeCommit?
    ensures NoArchivedRoute(Do(states, steps, n))
  {
    var s, a := states[n], steps[n];
    if a.DoArchive? {
      ArchiveAvoidsArchived(s, a.thread, a.localOrder, a.ownerOrder);
    } else if a.DoUnarchive? {
      assert forall c :: Life(Unarchive(s, a.thread), c).archived ==> Life(s, c).archived;
    } else {
      OthersAddNoRoute(states, steps, n);
      FewerAvoidArchived(s, Do(states, steps, n));
    }
  }

  /** Main theorem, third part: whatever intents are committed when, no route ever leads to a thread that is
      archived. */
  lemma {:induction false} RunAvoidsArchived(states: seq<State>, steps: seq<Step>, n: nat)
    requires Run(states, steps) && NoArchivedRoute(states[0]) && n <= |steps|
    requires forall k :: 0 <= k < |steps| ==> FullVisit(states[k], steps[k])
    ensures NoArchivedRoute(states[n])
    decreases n
  {
    if n > 0 {
      var m := n - 1;
      RunAvoidsArchived(states, steps, m);
      RunGrows(states, steps, m, m);
      assert states[m + 1] == Do(states, steps, m) && FullVisit(states[m], steps[m]);
      if steps[m].DoCommit? || steps[m].DoRuntimeCommit? {
        CommitAvoidsArchived(states, steps, m);
      } else {
        OthersAvoidArchived(states, steps, m);
      }
    }
  }
}
