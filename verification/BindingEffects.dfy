/** What the intent API does to routes and revisions, in plain terms: what a clear removes and for how long,
    and when a commit goes through (agent/codex_binding_intent.go, agent/codex_desktop_owner.go). */
module BindingEffects {
  import opened Json
  import opened Bindings
  import opened BindingSafety

  // ---- Taking an intent ----

  /** The conversation has a revision newer than anything the store knew; other revisions and all routes
      stand. */
  ghost predicate Advanced(a: Store, b: Store, c: Conv) {
    && c in b.revs && b.revs[c] > a.counter && b.counter >= b.revs[c]
    && (forall u :: u != c ==> (u in a.revs <==> u in b.revs) && (u in a.revs ==> b.revs[u] == a.revs[u]))
  }

  /** Beginning takes a new revision of both stores and touches no route; the intent holds both, and the
      lifecycle of its thread. */
  lemma {:induction false} BeginAdvances(s: State, c: Conv, t: Thread)
    requires c.text != ""
    ensures var (n, i) := Begin(s, c, t);
            && Advanced(s.local, n.local, c) && Advanced(s.owner, n.owner, c)
            && n.local.routes == s.local.routes && n.owner.routes == s.owner.routes
            && n.lives == s.lives && n.archived == s.archived
            && i == Intent(c, t, n.local.revs[c], n.owner.revs[c], if t in s.lives then s.lives[t].revision else 0, NO_THREAD, NO_THREAD)
  {
  }

  /** A clear takes a new revision of both stores and removes the conversation's route from both; all other
      routes stand. */
  lemma {:induction false} ClearUnroutes(s: State, c: Conv)
    requires c.text != ""
    ensures var (n, i) := Invalidate(s, c);
            && Advanced(s.local, n.local, c) && Advanced(s.owner, n.owner, c)
            && n.local.routes == (map u | u in s.local.routes && u != c :: s.local.routes[u])
            && n.owner.routes == (map u | u in s.owner.routes && u != c :: s.owner.routes[u])
            && n.lives == s.lives && n.archived == s.archived
            && i.conv == c && i.localRev == n.local.revs[c] && i.ownerRev == n.owner.revs[c] && i.thread == NO_THREAD
  {
  }

  /** The store routes the conversation to the thread. */
  predicate Leads(s: Store, c: Conv, t: Thread) {
    c in s.routes && s.routes[c] == t
  }

  predicate Archived(s: State, t: Thread) {
    t in s.lives && s.lives[t].archived
  }

  /** The conversation has a revision in the store. */
  predicate HasRevision(s: Store, c: Conv) {
    c in s.revs && s.revs[c] != 0
  }

  /** A revision was supplied if there was none; nothing else changed. */
  ghost predicate Supplied(a: Store, b: Store, c: Conv) {
    && b.routes == a.routes
    && (HasRevision(a, c) ==> b == a)
    && (!HasRevision(a, c) ==> Advanced(a, b, c))
  }

  /** The intent holds the revisions of both stores and the lifecycle of its thread. */
  predicate Holds(s: State, i: Intent, c: Conv, t: Thread) {
    && i.conv == c && i.thread == t && c in s.local.revs && i.localRev == s.local.revs[c] && c in s.owner.revs && i.ownerRev == s.owner.revs[c]
    && i.threadRev == if t in s.lives then s.lives[t].revision else 0
  }

  /** A current intent is handed out exactly for a route that both stores hold to a thread that is not archived.
      The agent's store gets a revision for its route if it had none, the registry only if the intent is handed
      out. */
  lemma {:induction false} CurrentExactly(s: State, c: Conv, t: Thread)
    requires c.text != "" && t.text != ""
    ensures var (n, i) := Current(s, c, t);
            && (i.Some? <==> Leads(s.local, c, t) && Leads(s.owner, c, t) && !Archived(s, t))
            && (i.Some? ==> Holds(n, i.value, c, t) && i.value.expectedLocal == i.value.expectedOwner == t)
            && (if Leads(s.local, c, t) then Supplied(s.local, n.local, c) else n.local == s.local)
            && (if i.Some? then Supplied(s.owner, n.owner, c) else n.owner == s.owner)
            && n.lives == s.lives && n.archived == s.archived
  {
  }

  /** An observation is taken up exactly if its thread is not archived, the agent has no other route, and either
      the registry has this very route or the conversation was never begun or cleared.  A route that was seen is
      expected to stand and gets a revision if it has none; first news take a new revision of both stores. */
  lemma {:induction false} ObservedExactly(s: State, c: Conv, t: Thread)
    requires c.text != "" && t.text != ""
    ensures var (n, i) := Observe(s, c, t);
            && (i.Some? <==>
                  && !Archived(s, t) && (c in s.local.routes && s.local.routes[c] != NO_THREAD ==> s.local.routes[c] == t)
                  && (Leads(s.owner, c, t) || !HasRevision(s.local, c)))
            && (i.None? ==> n == s)
            && (i.Some? ==> Holds(n, i.value, c, t))
            && (i.Some? && Leads(s.owner, c, t) ==>
                  && Supplied(s.local, n.local, c) && Supplied(s.owner, n.owner, c)
                  && i.value.expectedLocal == (if c in s.local.routes then s.local.routes[c] else NO_THREAD) && i.value.expectedOwner == t)
            && (i.Some? && !Leads(s.owner, c, t) ==>
                  && Advanced(s.local, n.local, c) && Advanced(s.owner, n.owner, c)
                  && n.local.routes == s.local.routes && n.owner.routes == s.owner.routes
                  && i.value.expectedLocal == i.value.expectedOwner == NO_THREAD)
            && n.lives == s.lives && n.archived == s.archived
  {
  }

  // ---- Committing ----

  /** Nothing that the intent relies on has changed. */
  predicate Stands(s: State, i: Intent) {
    && i.localRev > 0 && i.conv in s.local.revs && s.local.revs[i.conv] == i.localRev
    && i.ownerRev > 0 && i.conv in s.owner.revs && s.owner.revs[i.conv] == i.ownerRev
    && (i.thread.text != "" ==> !Archived(s, i.thread) && (if i.thread in s.lives then s.lives[i.thread].revision else 0) == i.threadRev)
    && (i.expectedLocal.text != "" ==> Leads(s.local, i.conv, i.expectedLocal))
    && (i.expectedOwner.text != "" ==> Leads(s.owner, i.conv, i.expectedOwner))
  }

  /** A thread commit goes through exactly if the intent stands and the registry does not refuse; then the
      agent's store routes the conversation to the thread, and so does the registry if the commit writes it.
      No other route changes. */
  lemma {:induction false} ThreadCommitExactly(s: State, i: Intent, how: OwnerCommit)
    ensures CommitThread(s, i, how).Some? <==>
              Stands(s, i) && (how.Claim? ==> i.thread !in s.archived && !how.refused)
    ensures CommitThread(s, i, how).Some? ==>
              var n := CommitThread(s, i, how).value;
              && n.local.routes == s.local.routes[i.conv := i.thread]
              && n.owner.routes == if how.NoOwner? then s.owner.routes else s.owner.routes[i.conv := i.thread]
  {
  }

  /** A runtime-only commit goes through exactly then too, and leaves the agent's store alone. */
  lemma {:induction false} RuntimeCommitExactly(s: State, i: Intent, how: OwnerCommit)
    ensures CommitRuntime(s, i, how).Some? <==>
              Stands(s, i) && (how.Claim? ==> i.thread !in s.archived && !how.refused)
    ensures CommitRuntime(s, i, how).Some? ==>
              var n := CommitRuntime(s, i, how).value;
              && n.local == s.local
              && n.owner.routes == if how.NoOwner? then s.owner.routes else s.owner.routes[i.conv := i.thread]
  {
  }

  // ---- Archiving ----

  /** Archiving marks the thread in both views and gives it a new lifecycle; bringing it back unmarks it, again
      with a new one. */
  lemma {:induction false} ArchiveMarks(s: State, t: Thread, l: seq<Conv>, o: seq<Conv>)
    requires t.text != ""
    ensures var n := Archive(s, t, l, o);
            && Archived(n, t) && n.lives[t].revision > s.lifeCounter && n.archived == s.archived + {t}
            && forall u :: u != t ==> (u in n.lives <==> u in s.lives) && (u in s.lives ==> n.lives[u] == s.lives[u])
    ensures var n := Unarchive(s, t);
            && t in n.lives && !n.lives[t].archived && n.lives[t].revision > s.lifeCounter && n.archived == s.archived - {t}
            && n.local == s.local && n.owner == s.owner
            && forall u :: u != t ==> (u in n.lives <==> u in s.lives) && (u in s.lives ==> n.lives[u] == s.lives[u])
  {
  }

  /** Each store gives every conversation that it unroutes a revision newer than all it knew, and leaves the
      routes and revisions of the others alone. */
  lemma {:induction false} ForgetAdvances(s: Store, order: seq<Conv>, c: Conv)
    ensures var n := Forget(s, order);
            && n.counter >= s.counter
            && (c in order ==> c !in n.routes && (c.text != "" ==> c in n.revs && n.counter >= n.revs[c] > s.counter))
            && (c !in order ==> (c in n.routes <==> c in s.routes) && (c in s.routes ==> n.routes[c] == s.routes[c])
                                && (c in n.revs <==> c in s.revs) && (c in s.revs ==> n.revs[c] == s.revs[c]))
    decreases |order|
  {
    if order != [] {
      var k := |order| - 1;
      ForgetAdvances(s, order[..k], c);
      assert order == order[..k] + [order[k]];
    }
  }

  /** So archiving a thread outdates every intent for a conversation that either store routed to it. */
  lemma {:induction false} ArchiveOutdates(s: State, t: Thread, l: seq<Conv>, o: seq<Conv>, i: Intent)
    requires t.text != "" && i.conv.text != "" && Visits(s.local, t, l) && Visits(s.owner, t, o)
    requires Leads(s.local, i.conv, t) || Leads(s.owner, i.conv, t)
    requires i.localRev <= s.local.counter && i.ownerRev <= s.owner.counter
    ensures !Stands(Archive(s, t, l, o), i)
  {
    ForgetAdvances(s.local, l, i.conv);
    ForgetAdvances(s.owner, o, i.conv);
  }

  // ---- A clear holds over runs ----

  /** Step `n` is a commit for the conversation that goes through, of an intent taken at step `a` or later. */
  predicate CommitsSince(states: seq<State>, steps: seq<Step>, a: nat, n: nat, c: Conv)
    requires |states| > |steps| > n
  {
    && (steps[n].DoCommit? || steps[n].DoRuntimeCommit?) && a <= steps[n].from < n
    && Succeeds(states, steps, n) && Committed(states, steps, n).value.conv == c
  }

  /** Steps that do not commit for the conversation give it no route. */
  lemma {:induction false} OnlyCommitsRoute(states: seq<State>, steps: seq<Step>, n: nat, c: Conv)
    requires |states| > |steps| > n && c !in states[n].local.routes && c !in states[n].owner.routes
    requires (steps[n].DoCommit? || steps[n].DoRuntimeCommit?) && Succeeds(states, steps, n) ==> Committed(states, steps, n).value.conv != c
    ensures c !in Do(states, steps, n).local.routes && c !in Do(states, steps, n).owner.routes
  {
    var s := states[n];
    match steps[n]
    case DoArchive(t, l, o) =>
      ForgetAddsNone(s.local, l, c);
      ForgetAddsNone(s.owner, o, c);
    case DoCommit(_, _, how) =>
      if Succeeds(states, steps, n) {
        ThreadCommitExactly(s, Committed(states, steps, n).value, how);
      }
    case DoRuntimeCommit(_, how) =>
      if Succeeds(states, steps, n) {
        RuntimeCommitExactly(s, Committed(states, steps, n).value, how);
      }
    case _ =>
  }

  lemma {:induction false} ForgetAddsNone(s: Store, order: seq<Conv>, c: Conv)
    requires c !in s.routes
    ensures c !in Forget(s, order).routes
    decreases |order|
  {
    if order != [] {
      ForgetAddsNone(s, order[..|order| - 1], c);
    }
  }

  /** Main theorem on clears: in every run, after a conversation has been cleared neither store routes it again
      before a commit goes through whose intent was taken at the clear or later.  Whatever was begun before
      the clear never brings the route back. */
  lemma {:induction false} ClearHolds(states: seq<State>, steps: seq<Step>, a: nat, n: nat, c: Conv)
    requires Run(states, steps) && a < n <= |steps| && steps[a] == DoClear(c) && c.text != ""
    ensures (c !in states[n].local.routes && c !in states[n].owner.routes)
            || exists k :: a < k < n && CommitsSince(states, steps, a, k, c)
    decreases n
  {
    var m := n - 1;
    assert states[m + 1] == Do(states, steps, m);
    if m == a {
      ClearUnroutes(states[a], c);
    } else {
      ClearHolds(states, steps, a, m, c);
      if forall k :: a < k < m ==> !CommitsSince(states, steps, a, k, c) {
        if (steps[m].DoCommit? || steps[m].DoRuntimeCommit?) && Succeeds(states, steps, m) && Committed(states, steps, m).value.conv == c {
          if steps[m].from < a {
            CommitIsNewest(states, steps, m, a);
          }
          assert CommitsSince(states, steps, a, m, c);
        } else {
          OnlyCommitsRoute(states, steps, m, c);
        }
      }
    }
  }

  // ---- A commit that nobody disturbs ----

  /** The step may outdate an intent for the conversation. */
  predicate Disturbs(a: Step, c: Conv) {
    || ((a.DoBegin? || a.DoClear? || a.DoObserve?) && a.conv == c)
    || a.DoArchive? || a.DoUnarchive?
  }

  lemma {:induction false} Undisturbed(states: seq<State>, steps: seq<Step>, n: nat, c: Conv)
    requires |states| > |steps| > n && !Disturbs(steps[n], c)
    requires c in states[n].local.revs && states[n].local.revs[c] != 0 && c in states[n].owner.revs && states[n].owner.revs[c] != 0
    ensures var s, t := states[n], Do(states, steps, n);
            && c in t.local.revs && t.local.revs[c] == s.local.revs[c] && c in t.owner.revs && t.owner.revs[c] == s.owner.revs[c]
            && t.lives == s.lives && t.archived == s.archived
  {
    match steps[n]
    case DoCommit(_, _, _) =>
      if Succeeds(states, steps, n) {
        CommitSetsRoutes(states[n], steps[n], Committed(states, steps, n).value);
      }
    case DoRuntimeCommit(_, _) =>
      if Succeeds(states, steps, n) {
        CommitSetsRoutes(states[n], steps[n], Committed(states, steps, n).value);
      }
    case _ =>
  }

  lemma {:induction false} StaysUndisturbed(states: seq<State>, steps: seq<Step>, f: nat, n: nat, c: Conv)
    requires Run(states, steps) && f <= n <= |steps| && (forall k :: f <= k < n ==> !Disturbs(steps[k], c))
    requires c in states[f].local.revs && states[f].local.revs[c] != 0 && c in states[f].owner.revs && states[f].owner.revs[c] != 0
    ensures var s, t := states[f], states[n];
            && c in t.local.revs && t.local.revs[c] == s.local.revs[c] && c in t.owner.revs && t.owner.revs[c] == s.owner.revs[c]
            && t.lives == s.lives && t.archived == s.archived
    decreases n
  {
    if f < n {
      StaysUndisturbed(states, steps, f, n - 1, c);
      Undisturbed(states, steps, n - 1, c);
      assert states[n - 1 + 1] == Do(states, steps, n - 1);
    }
  }

  /** Main theorem on commits: in every run, an intent begun for a thread that is not archived can be committed,
      by a binding that writes both stores, as long as nobody has begun, cleared or observed its conversation
      and no thread was archived or brought back; then both stores route the conversation to the thread. */
  lemma {:induction false} UndisturbedCommitSucceeds(states: seq<State>, steps: seq<Step>, f: nat, n: nat)
    requires Run(states, steps) && f < n < |steps| && steps[f].DoBegin? && steps[f].conv.text != "" && steps[f].thread.text != ""
    requires !Archived(states[f], steps[f].thread)
    requires steps[n].DoCommit? && steps[n].from == f && (steps[n].how == Bind || (steps[n].how == Claim(false) && steps[f].thread !in states[f].archived))
    requires forall k :: f < k < n ==> !Disturbs(steps[k], steps[f].conv)
    ensures Succeeds(states, steps, n)
    ensures Leads(states[n + 1].local, steps[f].conv, steps[f].thread) && Leads(states[n + 1].owner, steps[f].conv, steps[f].thread)
  {
    var c, t := steps[f].conv, steps[f].thread;
    BeginAdvances(states[f], c, t);
    assert states[f + 1] == Do(states, steps, f) && states[n + 1] == Do(states, steps, n);
    StaysUndisturbed(states, steps, f + 1, n, c);
    var i := Committed(states, steps, n).value;
    ThreadCommitExactly(states[n], i, steps[n].how);
  }
}
