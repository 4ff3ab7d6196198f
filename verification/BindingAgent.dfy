/** The agent and its owner registry as objects updated in place; each critical section is the step of
    `Bindings` of the same name. */
module BindingAgent {
  import opened Json
  import opened Bindings

  /** One route map with its revisions, as both the agent and the registry keep it. */
  class RouteStore {
    var routes: map<Conv, Thread>
    var revisions: map<Conv, nat>
    var counter: nat

    constructor (restored: map<Conv, Thread>)
      ensures Value() == Store(restored, map[], 0)
    {
      routes, revisions, counter := restored, map[], 0;
    }

    function Value(): (s: Store)
      reads this
    {
      Store(routes, revisions, counter)
    }

    /** advanceCodexBindingRevisionLocked and advanceConversationRevisionLocked. */
    method Advance(c: Conv) returns (revision: nat)
      modifies this
      ensures Value() == Bindings.Advance(old(Value()), c)
      ensures revision == if c == NO_CONV then 0 else Rev(Value(), c)
    {
      if c == NO_CONV {
        return 0;
      }
      counter := counter + 1;
      revisions := revisions[c := counter];
      revision := counter;
    }

    method Ensure(c: Conv) returns (revision: nat)
      requires c != NO_CONV
      modifies this
      ensures Value() == Bindings.Ensure(old(Value()), c)
      ensures revision == Rev(Value(), c)
    {
      if c in revisions && revisions[c] != 0 {
        return revisions[c];
      }
      revision := Advance(c);
    }

    method Remove(c: Conv)
      modifies this
      ensures Value() == Unroute(old(Value()), c)
    {
      routes := routes - {c};
    }

    method Put(c: Conv, t: Thread)
      modifies this
      ensures Value() == SetRoute(old(Value()), c, t)
    {
      routes := routes[c := t];
    }

    /** Deletes one route, with a new revision. */
    method Forget(c: Conv, ghost first: Store, ghost order: seq<Conv>)
      requires Value() == Bindings.Forget(first, order)
      modifies this
      ensures Value() == Bindings.Forget(first, order + [c]) && routes == old(routes) - {c}
    {
      assert (order + [c])[..|order|] == order;
      var _ := Advance(c);
      Remove(c);
    }

    /** Deletes every route to the thread, in whatever order the map yields them, each deletion taking a
        new revision. */
    method ForgetThread(t: Thread) returns (ghost order: seq<Conv>)
      modifies this
      ensures Visits(old(Value()), t, order)
      ensures Value() == Bindings.Forget(old(Value()), order)
    {
      order := [];
      var rest := routes.Keys;
      while rest != {}
        invariant Value() == Bindings.Forget(old(Value()), order)
        invariant rest <= old(routes).Keys
        invariant forall c :: c in order <==> c in old(routes) && c !in rest && old(routes)[c] == t
        invariant forall i, j :: 0 <= i < j < |order| ==> order[i] != order[j]
        invariant forall c :: c in rest ==> c in routes && routes[c] == old(routes)[c]
        decreases rest
      {
        var c :| c in rest;
        rest := rest - {c};
        if routes[c] == t {
          Forget(c, old(Value()), order);
          order := order + [c];
        }
      }
    }
  }

  class Agent {
    const local: RouteStore
    const owner: RouteStore
    var lifecycles: map<Thread, Lifecycle>
    var lifecycleCounter: nat
    var archivedThreads: set<Thread>

    ghost predicate Valid()
      reads this
    {
      local != owner
    }

    constructor (localRoutes: map<Conv, Thread>, ownerRoutes: map<Conv, Thread>)
      ensures Valid() && fresh(local) && fresh(owner)
      ensures Value() == State(Store(localRoutes, map[], 0), Store(ownerRoutes, map[], 0), map[], 0, {})
    {
      local := new RouteStore(localRoutes);
      owner := new RouteStore(ownerRoutes);
      lifecycles, lifecycleCounter, archivedThreads := map[], 0, {};
    }

    function Value(): (s: State)
      reads this, local, owner
    {
      State(local.Value(), owner.Value(), lifecycles, lifecycleCounter, archivedThreads)
    }

    method Begin(c: Conv, t: Thread) returns (i: Intent)
      requires Valid()
      modifies local, owner
      ensures Valid() && (Value(), i) == Bindings.Begin(old(Value()), c, t)
    {
      var localRevision := local.Advance(c);
      var threadRevision := Life(Value(), t).revision;
      var ownerRevision := owner.Advance(c);
      i := Intent(c, t, localRevision, ownerRevision, threadRevision, NO_THREAD, NO_THREAD);
    }

    method Invalidate(c: Conv) returns (i: Intent)
      requires Valid()
      modifies local, owner
      ensures Valid() && (Value(), i) == Bindings.Invalidate(old(Value()), c)
    {
      var localRevision := local.Advance(c);
      local.Remove(c);
      var ownerRevision := owner.Advance(c);
      owner.Remove(c);
      i := Intent(c, NO_THREAD, localRevision, ownerRevision, 0, NO_THREAD, NO_THREAD);
    }

    /** The registry's revision of a conversation it routes to the thread. */
    method OwnerRevision(c: Conv, t: Thread) returns (revision: Option<nat>)
      requires Valid() && c != NO_CONV && t != NO_THREAD
      modifies owner
      ensures Route(old(owner.Value()), c) == t ==>
                owner.Value() == Ensure(old(owner.Value()), c) && revision == Some(Rev(owner.Value(), c))
      ensures Route(old(owner.Value()), c) != t ==> owner.Value() == old(owner.Value()) && revision == None
    {
      if Route(owner.Value(), c) != t {
        return None;
      }
      var r := owner.Ensure(c);
      revision := Some(r);
    }

    method Current(c: Conv, t: Thread) returns (i: Option<Intent>)
      requires Valid()
      modifies local, owner
      ensures Valid() && (Value(), i) == Bindings.Current(old(Value()), c, t)
    {
      if c == NO_CONV || t == NO_THREAD || Route(local.Value(), c) != t {
        return None;
      }
      var localRevision := local.Ensure(c);
      var life := Life(Value(), t);
      if life.archived {
        return None;
      }
      var ownerRevision := OwnerRevision(c, t);
      if ownerRevision.None? {
        return None;
      }
      i := Some(Intent(c, t, localRevision, ownerRevision.value, life.revision, t, t));
    }

    method Observe(c: Conv, t: Thread) returns (i: Option<Intent>)
      requires Valid()
      modifies local, owner
      ensures Valid() && (Value(), i) == Bindings.Observe(old(Value()), c, t)
    {
      if c == NO_CONV || t == NO_THREAD {
        return None;
      }
      var route, localRevision, life := Route(local.Value(), c), Rev(local.Value(), c), Life(Value(), t);
      if life.archived || (route != NO_THREAD && route != t) {
        return None;
      }
      var ownerRevision := OwnerRevision(c, t);
      if ownerRevision.Some? {
        if localRevision == 0 {
          localRevision := local.Advance(c);
        }
        return Some(Intent(c, t, localRevision, ownerRevision.value, life.revision, route, t));
      }
      if localRevision != 0 {
        return None;
      }
      localRevision := local.Advance(c);
      var r := owner.Advance(c);
      i := Some(Intent(c, t, localRevision, r, life.revision, NO_THREAD, NO_THREAD));
    }

    /** What the callback does to the registry at the intent's revision. */
    method RunOwnerCommit(i: Intent, how: OwnerCommit) returns (ok: bool)
      requires Valid()
      modifies owner
      ensures ok <==> CommitOwner(old(Value()), i, how).Some?
      ensures Value() == if ok then CommitOwner(old(Value()), i, how).value else old(Value())
    {
      match how
      case NoOwner => ok := true;
      case Bind =>
        ok := Rev(owner.Value(), i.conv) == i.ownerRev;
        if ok {
          owner.Put(i.conv, i.thread);
        }
      case Claim(refused) =>
        ok := Rev(owner.Value(), i.conv) == i.ownerRev && i.thread !in archivedThreads && !refused;
        if ok {
          owner.Put(i.conv, i.thread);
        }
    }

    /** A commit changes the state as the step says, or fails and changes nothing. */
    method CommitRuntime(i: Intent, how: OwnerCommit) returns (ok: bool)
      requires Valid()
      modifies owner
      ensures Valid() && (ok <==> Bindings.CommitRuntime(old(Value()), i, how).Some?)
      ensures Value() == if ok then Bindings.CommitRuntime(old(Value()), i, how).value else old(Value())
    {
      if !IsCurrent(Value(), i) {
        return false;
      }
      ok := RunOwnerCommit(i, how);
    }

    /** The registry is written first; the second look at the local revision cannot fail any more, so both
        stores change or neither. */
    method CommitThread(i: Intent, how: OwnerCommit) returns (ok: bool)
      requires Valid()
      modifies local, owner
      ensures Valid() && (ok <==> Bindings.CommitThread(old(Value()), i, how).Some?)
      ensures Value() == if ok then Bindings.CommitThread(old(Value()), i, how).value else old(Value())
    {
      if !IsCurrent(Value(), i) {
        return false;
      }
      ok := RunOwnerCommit(i, how);
      if !ok {
        return;
      }
      if Rev(local.Value(), i.conv) != i.localRev {
        return false;
      }
      local.Put(i.conv, i.thread);
    }

    method Archive(t: Thread) returns (ghost localOrder: seq<Conv>, ghost ownerOrder: seq<Conv>)
      requires Valid()
      modifies this, local, owner
      ensures Valid() && Value() == Bindings.Archive(old(Value()), t, localOrder, ownerOrder)
      ensures t != NO_THREAD ==> Visits(old(local.Value()), t, localOrder) && Visits(old(owner.Value()), t, ownerOrder)
    {
      localOrder, ownerOrder := [], [];
      if t == NO_THREAD {
        return;
      }
      archivedThreads := archivedThreads + {t};
      ownerOrder := owner.ForgetThread(t);
      lifecycleCounter := lifecycleCounter + 1;
      lifecycles := lifecycles[t := Lifecycle(lifecycleCounter, true)];
      localOrder := local.ForgetThread(t);
    }

    method Unarchive(t: Thread)
      requires Valid()
      modifies this
      ensures Valid() && Value() == Bindings.Unarchive(old(Value()), t)
    {
      if t == NO_THREAD {
        return;
      }
      lifecycleCounter := lifecycleCounter + 1;
      lifecycles := lifecycles[t := Lifecycle(lifecycleCounter, false)];
      archivedThreads := archivedThreads - {t};
    }
  }
}
