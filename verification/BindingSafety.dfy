/** What every interleaving of intents, commits, clears and archives keeps. */
module BindingSafety {
  import opened Json
  import opened Bindings

  datatype Step =
    | DoBegin(conv: Conv, thread: Thread)
    | DoClear(conv: Conv)
    | DoCurrent(conv: Conv, thread: Thread)
    | DoObserve(conv: Conv, thread: Thread)
    | DoCommit(from: nat, thread: Thread, how: OwnerCommit)
    | DoRuntimeCommit(from: nat, how: OwnerCommit)
    | DoArchive(thread: Thread, localOrder: seq<Conv>, ownerOrder: seq<Conv>)
    | DoUnarchive(thread: Thread)

  /** The intent a step hands out. */
  function Issue(s: State, a: Step): Option<Intent> {
    match a
    case DoBegin(c, t) => Some(Begin(s, c, t).1)
    case DoClear(c) => Some(Invalidate(s, c).1)
    case DoCurrent(c, t) => Current(s, c, t).1
    case DoObserve(c, t) => Observe(s, c, t).1
    case _ => None
  }

  /** An intent taken before its thread was known is completed when the thread has been created. */
  function Filled(i: Intent, t: Thread): Intent {
    if i.thread == NO_THREAD then i.(thread := t) else i
  }

  /** The intent that step `n` commits. */
  function Committed(states: seq<State>, steps: seq<Step>, n: nat): Option<Intent>
    requires |states| > |steps| > n
  {
    var a := steps[n];
    if a.DoCommit? && a.from < n && Issue(states[a.from], steps[a.from]).Some? then
      Some(Filled(Issue(states[a.from], steps[a.from]).value, a.thread))
    else if a.DoRuntimeCommit? && a.from < n then Issue(states[a.from], steps[a.from])
    else None
  }

  function CommitResult(s: State, a: Step, i: Intent): Option<State>
    requires a.DoCommit? || a.DoRuntimeCommit?
  {
    if a.DoCommit? then CommitThread(s, i, a.how) else CommitRuntime(s, i, a.how)
  }

  function Do(states: seq<State>, steps: seq<Step>, n: nat): State
    requires |states| > |steps| > n
  {
    var s := states[n];
    match steps[n]
    case DoBegin(c, t) => Begin(s, c, t).0
    case DoClear(c) => Invalidate(s, c).0
    case DoCurrent(c, t) => Current(s, c, t).0
    case DoObserve(c, t) => Observe(s, c, t).0
    case DoArchive(t, l, o) => Archive(s, t, l, o)
    case DoUnarchive(t) => Unarchive(s, t)
    case _ =>
      match Committed(states, steps, n)
      case None => s
      case Some(i) =>
        match CommitResult(s, steps[n], i)
        case None => s
        case Some(next) => next
  }

  predicate Succeeds(states: seq<State>, steps: seq<Step>, n: nat)
    requires |states| > |steps| > n
  {
    Committed(states, steps, n).Some? && CommitResult(states[n], steps[n], Committed(states, steps, n).value).Some?
  }

  /** Revisions in use never exceed their counters. */
  ghost predicate Bounded(s: Store) {
    forall c :: c in s.revs ==> s.revs[c] <= s.counter
  }

  ghost predicate BoundedLives(s: State) {
    NO_THREAD !in s.lives && forall t :: t in s.lives ==> s.lives[t].revision <= s.lifeCounter
  }

  ghost predicate Sane(s: State) {
    Bounded(s.local) && Bounded(s.owner) && BoundedLives(s)
  }

  ghost predicate Run(states: seq<State>, steps: seq<Step>) {
    && |states| == |steps| + 1 && Sane(states[0])
    && forall n :: 0 <= n < |steps| ==> states[n + 1] == Do(states, steps, n)
  }

  // ---- Revisions only grow ----

  /** Revisions of `b` are those of `a` or newer than anything `a` knew. */
  ghost predicate Grows(a: Store, b: Store) {
    && a.counter <= b.counter && Bounded(b)
    && forall c :: Rev(b, c) == Rev(a, c) || Rev(b, c) > a.counter
  }

  lemma AdvanceGrows(s: Store, c: Conv)
    requires Bounded(s)
    ensures Grows(s, Advance(s, c)) && Grows(s, Ensure(s, c)) && Grows(s, s)
  {
  }

  lemma {:induction false} ForgetGrows(s: Store, order: seq<Conv>)
    requires Bounded(s)
    ensures Grows(s, Forget(s, order))
    decreases |order|
  {
    if order != [] {
      ForgetGrows(s, order[..|order| - 1]);
    }
  }

  /** Lifecycles of `b` are those of `a` or newer than anything `a` knew. */
  ghost predicate LivesGrow(a: State, b: State) {
    && a.lifeCounter <= b.lifeCounter && BoundedLives(b)
    && forall t :: Life(b, t) == Life(a, t) || Life(b, t).revision > a.lifeCounter
  }

  /** A commit changes routes and nothing else. */
  lemma {:induction false} CommitSetsRoutes(s: State, a: Step, i: Intent)
    requires a.DoCommit? || a.DoRuntimeCommit?
    requires CommitResult(s, a, i).Some?
    ensures var n := CommitResult(s, a, i).value;
            && n.local.revs == s.local.revs && n.local.counter == s.local.counter
            && n.owner.revs == s.owner.revs && n.owner.counter == s.owner.counter
            && n.lives == s.lives && n.lifeCounter == s.lifeCounter && n.archived == s.archived
  {
  }

  lemma {:induction false} CommitGrows(states: seq<State>, steps: seq<Step>, n: nat)
    requires |states| > |steps| > n && Sane(states[n]) && (steps[n].DoCommit? || steps[n].DoRuntimeCommit?)
    ensures var s, t := states[n], Do(states, steps, n);
            Grows(s.local, t.local) && Grows(s.owner, t.owner) && LivesGrow(s, t)
  {
    if Succeeds(states, steps, n) {
      CommitSetsRoutes(states[n], steps[n], Committed(states, steps, n).value);
    }
  }

  lemma {:induction false} IntentGrows(s: State, c: Conv, t: Thread)
    requires Bounded(s.local) && Bounded(s.owner)
    ensures Grows(s.local, Begin(s, c, t).0.local) && Grows(s.owner, Begin(s, c, t).0.owner)
    ensures Grows(s.local, Invalidate(s, c).0.local) && Grows(s.owner, Invalidate(s, c).0.owner)
    ensures Grows(s.local, Current(s, c, t).0.local) && Grows(s.owner, Current(s, c, t).0.owner)
    ensures Grows(s.local, Observe(s, c, t).0.local) && Grows(s.owner, Observe(s, c, t).0.owner)
  {
    AdvanceGrows(s.local, c);
    AdvanceGrows(s.owner, c);
  }

  lemma {:induction false} IntentKeepsLives(s: State, c: Conv, t: Thread)
    ensures var b, i, u, o := Begin(s, c, t).0, Invalidate(s, c).0, Current(s, c, t).0, Observe(s, c, t).0;
            && b.lives == i.lives == u.lives == o.lives == s.lives
            && b.lifeCounter == i.lifeCounter == u.lifeCounter == o.lifeCounter == s.lifeCounter
  {
  }

  lemma {:induction false} ArchiveGrows(s: State, t: Thread, l: seq<Conv>, o: seq<Conv>)
    requires Sane(s)
    ensures Grows(s.local, Archive(s, t, l, o).local) && Grows(s.owner, Archive(s, t, l, o).owner)
    ensures LivesGrow(s, Archive(s, t, l, o)) && LivesGrow(s, Unarchive(s, t))
    ensures Grows(s.local, Unarchive(s, t).local) && Grows(s.owner, Unarchive(s, t).owner)
  {
    ForgetGrows(s.local, l);
    ForgetGrows(s.owner, o);
  }

  lemma {:induction false} StepGrows(states: seq<State>, steps: seq<Step>, n: nat)
    requires |states| > |steps| > n && Sane(states[n])
    ensures var s, t := states[n], Do(states, steps, n);
            Sane(t) && Grows(s.local, t.local) && Grows(s.owner, t.owner) && LivesGrow(s, t)
  {
    var s, a := states[n], steps[n];
    match a
    case DoArchive(t, l, o) => ArchiveGrows(s, t, l, o);
    case DoUnarchive(t) => ArchiveGrows(s, t, [], []);
    case DoCommit(_, _, _) => CommitGrows(states, steps, n);
    case DoRuntimeCommit(_, _) => CommitGrows(states, steps, n);
    case DoBegin(c, t) => IntentGrows(s, c, t); IntentKeepsLives(s, c, t);
    case DoClear(c) => IntentGrows(s, c, NO_THREAD); IntentKeepsLives(s, c, NO_THREAD);
    case DoCurrent(c, t) => IntentGrows(s, c, t); IntentKeepsLives(s, c, t);
    case DoObserve(c, t) => IntentGrows(s, c, t); IntentKeepsLives(s, c, t);
  }

  lemma {:induction false} GrowsOn(a: State, b: State, c: State)
    requires Grows(a.local, b.local) && Grows(b.local, c.local) && Grows(a.owner, b.owner) && Grows(b.owner, c.owner)
    requires LivesGrow(a, b) && LivesGrow(b, c)
    ensures Grows(a.local, c.local) && Grows(a.owner, c.owner) && LivesGrow(a, c)
  {
  }

  lemma {:induction false} RunIsSane(states: seq<State>, steps: seq<Step>, n: nat)
    requires Run(states, steps) && n <= |steps|
    ensures Sane(states[n])
    decreases n
  {
    if n > 0 {
      RunIsSane(states, steps, n - 1);
      StepGrows(states, steps, n - 1);
      assert states[n - 1 + 1] == Do(states, steps, n - 1);
    }
  }

  lemma {:induction false} RunGrows(states: seq<State>, steps: seq<Step>, a: nat, b: nat)
    requires Run(states, steps) && a <= b <= |steps|
    ensures Sane(states[a]) && Sane(states[b])
    ensures Grows(states[a].local, states[b].local) && Grows(states[a].owner, states[b].owner)
    ensures LivesGrow(states[a], states[b])
    decreases b
  {
    RunIsSane(states, steps, a);
    if a < b {
      RunGrows(states, steps, a, b - 1);
      StepGrows(states, steps, b - 1);
      assert states[b - 1 + 1] == Do(states, steps, b - 1);
      GrowsOn(states[a], states[b - 1], states[b]);
    }
  }

  // ---- A commit is newest ----

  function IssueState(s: State, a: Step): State
    requires Issue(s, a).Some?
  {
    match a
    case DoBegin(c, t) => Begin(s, c, t).0
    case DoClear(c) => Invalidate(s, c).0
    case DoCurrent(c, t) => Current(s, c, t).0
    case DoObserve(c, t) => Observe(s, c, t).0
  }

  /** An intent holds the newest revision of its conversation and of its thread. */
  lemma {:induction false} IssueIsNewest(s: State, a: Step)
    requires Sane(s) && Issue(s, a).Some?
    ensures var i := Issue(s, a).value;
            && i.conv == a.conv
            && (i.localRev == 0 || i.localRev == Rev(IssueState(s, a).local, i.conv))
            && i.threadRev == (if i.thread == NO_THREAD then 0 else Life(s, i.thread).revision)
  {
  }

  /** The conversation starts another generation. */
  predicate NewGeneration(a: Step, c: Conv) {
    (a.DoBegin? || a.DoClear?) && a.conv == c
  }

  predicate NewLifecycle(a: Step, t: Thread) {
    (a.DoArchive? || a.DoUnarchive?) && a.thread == t
  }

  lemma {:induction false} GenerationOutdates(states: seq<State>, steps: seq<Step>, k: nat, c: Conv)
    requires Run(states, steps) && k < |steps| && NewGeneration(steps[k], c) && c != NO_CONV
    ensures Rev(states[k + 1].local, c) > states[k].local.counter
  {
    assert states[k + 1] == Do(states, steps, k);
  }

  lemma {:induction false} LifecycleOutdates(states: seq<State>, steps: seq<Step>, k: nat, t: Thread)
    requires Run(states, steps) && k < |steps| && NewLifecycle(steps[k], t) && t != NO_THREAD
    ensures Life(states[k + 1], t).revision > states[k].lifeCounter
  {
    assert states[k + 1] == Do(states, steps, k);
  }

  /** An intent that is current at `n` has been so ever since it was taken. */
  lemma {:induction false} StillNewest(states: seq<State>, steps: seq<Step>, f: nat, k: nat, n: nat)
    requires Run(states, steps) && f < k <= n <= |steps| && Issue(states[f], steps[f]).Some?
    requires var i := Issue(states[f], steps[f]).value; i.localRev != 0 && Rev(states[n].local, i.conv) == i.localRev
    ensures var i := Issue(states[f], steps[f]).value; Rev(states[k].local, i.conv) == i.localRev
  {
    RunGrows(states, steps, f, f);
    IssueIsNewest(states[f], steps[f]);
    assert states[f + 1] == IssueState(states[f], steps[f]) by {
      assert states[f + 1] == Do(states, steps, f);
    }
    RunGrows(states, steps, f + 1, k);
    RunGrows(states, steps, k, n);
  }

  lemma {:induction false} StillAlive(states: seq<State>, steps: seq<Step>, f: nat, k: nat, n: nat, t: Thread)
    requires Run(states, steps) && f < k < n <= |steps| && t != NO_THREAD
    requires Life(states[n], t).revision in {Life(states[f], t).revision, 0}
    ensures !NewLifecycle(steps[k], t)
  {
    RunGrows(states, steps, f, k);
    RunGrows(states, steps, k + 1, n);
    RunGrows(states, steps, k, k + 1);
    if NewLifecycle(steps[k], t) {
      LifecycleOutdates(states, steps, k, t);
    }
  }

  /** Main theorem, first part: a commit that succeeds is the newest word on its conversation and on its
      thread.  Between taking the intent and committing it no other generation of the conversation was
      begun, the conversation was not cleared, and the thread was neither archived nor brought back. */
  lemma {:induction false} CommitIsNewest(states: seq<State>, steps: seq<Step>, n: nat, k: nat)
    requires Run(states, steps) && n < |steps| && Succeeds(states, steps, n)
    requires steps[n].from < k < n
    ensures var i := Committed(states, steps, n).value;
            && Rev(states[n].local, i.conv) == i.localRev
            && !NewGeneration(steps[k], i.conv)
            && (i.thread != NO_THREAD ==> !NewLifecycle(steps[k], i.thread))
  {
    var f := steps[n].from;
    var i := Committed(states, steps, n).value;
    RunGrows(states, steps, f, f);
    IssueIsNewest(states[f], steps[f]);
    StillNewest(states, steps, f, k, n);
    StillNewest(states, steps, f, k + 1, n);
    RunGrows(states, steps, k, k);
    if NewGeneration(steps[k], i.conv) {
      GenerationOutdates(states, steps, k, i.conv);
    }
    if i.thread != NO_THREAD {
      StillAlive(states, steps, f, k, n, i.thread);
    }
  }
}
