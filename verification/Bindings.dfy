/** Binding a conversation to a thread is optimistic: an intent is taken before slow work and committed
    after it, against two route stores with revisions that are never reused
    (agent/codex_binding_intent.go, agent/codex_desktop_owner.go, agent/codex_thread_archive.go). */
module Bindings {
  import opened Json

  /** Identifiers with surrounding white space removed; empty means missing. */
  datatype Conv = Conv(text: string)
  datatype Thread = Thread(text: string)

  const NO_CONV := Conv("")
  const NO_THREAD := Thread("")

  datatype Lifecycle = Lifecycle(revision: nat, archived: bool)

  /** One route store: the routes, the revision of each conversation and the revision counter. */
  datatype Store = Store(routes: map<Conv, Thread>, revs: map<Conv, nat>, counter: nat)

  /** The agent's own store, the owner registry's store, and thread lifecycles as each side sees them. */
  datatype State = State(local: Store, owner: Store, lives: map<Thread, Lifecycle>, lifeCounter: nat, archived: set<Thread>)

  datatype Intent = Intent(
    conv: Conv, thread: Thread, localRev: nat, ownerRev: nat, threadRev: nat,
    expectedLocal: Thread, expectedOwner: Thread)

  function Route(s: Store, c: Conv): Thread {
    if c in s.routes then s.routes[c] else NO_THREAD
  }

  function Rev(s: Store, c: Conv): nat {
    if c in s.revs then s.revs[c] else 0
  }

  function Life(s: State, t: Thread): Lifecycle {
    if t in s.lives then s.lives[t] else Lifecycle(0, false)
  }

  /** Takes a new revision for the conversation. */
  function Advance(s: Store, c: Conv): Store {
    if c == NO_CONV then s else s.(revs := s.revs[c := s.counter + 1], counter := s.counter + 1)
  }

  /** A revision for a conversation that has none yet. */
  function Ensure(s: Store, c: Conv): Store {
    if Rev(s, c) != 0 then s else Advance(s, c)
  }

  function Unroute(s: Store, c: Conv): Store {
    s.(routes := s.routes - {c})
  }

  function SetRoute(s: Store, c: Conv, t: Thread): Store {
    s.(routes := s.routes[c := t])
  }

  // ---- Taking an intent ----

  function Begun(s: State, c: Conv): State {
    s.(local := Advance(s.local, c), owner := Advance(s.owner, c))
  }

  function Taken(s: State, c: Conv, t: Thread, life: nat): Intent {
    Intent(c, t, if c == NO_CONV then 0 else Rev(s.local, c), if c == NO_CONV then 0 else Rev(s.owner, c), life,
           NO_THREAD, NO_THREAD)
  }

  function Begin(s: State, c: Conv, t: Thread): (State, Intent) {
    (Begun(s, c), Taken(Begun(s, c), c, t, Life(s, t).revision))
  }

  /** Clear: a new generation without a route in either store. */
  function Invalidate(s: State, c: Conv): (State, Intent) {
    var b := Begun(s, c);
    (b.(local := Unroute(b.local, c), owner := Unroute(b.owner, c)), Taken(b, c, NO_THREAD, 0))
  }

  /** A snapshot of a route that both stores hold; revisions are only supplied where missing. */
  function Current(s: State, c: Conv, t: Thread): (State, Option<Intent>) {
    if c == NO_CONV || t == NO_THREAD || Route(s.local, c) != t then (s, None)
    else
      var l := s.(local := Ensure(s.local, c));
      if Life(s, t).archived || Route(s.owner, c) != t then (l, None)
      else
        var o := l.(owner := Ensure(l.owner, c));
        (o, Some(Intent(c, t, Rev(o.local, c), Rev(o.owner, c), Life(s, t).revision, t, t)))
  }

  /** An observed turn: an existing owner route, or the first news of a conversation. */
  function Observe(s: State, c: Conv, t: Thread): (State, Option<Intent>) {
    if c == NO_CONV || t == NO_THREAD || Life(s, t).archived || Route(s.local, c) !in {NO_THREAD, t} then (s, None)
    else if Route(s.owner, c) == t then
      var o := s.(owner := Ensure(s.owner, c), local := Ensure(s.local, c));
      (o, Some(Intent(c, t, Rev(o.local, c), Rev(o.owner, c), Life(s, t).revision, Route(s.local, c), t)))
    else if Rev(s.local, c) != 0 then (s, None)
    else
      var b := Begun(s, c);
      (b, Some(Taken(b, c, t, Life(s, t).revision)))
  }

  // ---- Committing ----

  predicate IsCurrent(s: State, i: Intent) {
    && i.localRev != 0 && Rev(s.local, i.conv) == i.localRev
    && (i.thread != NO_THREAD ==> !Life(s, i.thread).archived && Life(s, i.thread).revision == i.threadRev)
    && (i.expectedLocal == NO_THREAD || Route(s.local, i.conv) == i.expectedLocal)
    && i.ownerRev != 0 && Rev(s.owner, i.conv) == i.ownerRev
    && (i.expectedOwner == NO_THREAD || Route(s.owner, i.conv) == i.expectedOwner)
  }

  /** What the caller does to the owner registry: claim or activate (refused for archived threads),
      bind, or nothing; `refused` is a registry refusal for reasons of its own, such as a writer lease. */
  datatype OwnerCommit = Claim(refused: bool) | Bind | NoOwner

  function CommitOwner(s: State, i: Intent, how: OwnerCommit): Option<State> {
    match how
    case NoOwner => Some(s)
    case Bind => if Rev(s.owner, i.conv) != i.ownerRev then None else Some(s.(owner := SetRoute(s.owner, i.conv, i.thread)))
    case Claim(refused) =>
      if Rev(s.owner, i.conv) != i.ownerRev || i.thread in s.archived || refused then None
      else Some(s.(owner := SetRoute(s.owner, i.conv, i.thread)))
  }

  /** Installs the route in both stores. */
  function CommitThread(s: State, i: Intent, how: OwnerCommit): Option<State> {
    if !IsCurrent(s, i) then None
    else
      match CommitOwner(s, i, how)
      case None => None
      case Some(o) => Some(o.(local := SetRoute(o.local, i.conv, i.thread)))
  }

  /** Installs the route in the owner registry only. */
  function CommitRuntime(s: State, i: Intent, how: OwnerCommit): Option<State> {
    if !IsCurrent(s, i) then None else CommitOwner(s, i, how)
  }

  // ---- Archiving ----

  /** Removes every route to the thread, each with a new revision; `order` is the order in which the
      conversations are visited. */
  function Forget(s: Store, order: seq<Conv>): Store
    decreases |order|
  {
    if order == [] then s
    else
      var n := |order| - 1;
      Unroute(Advance(Forget(s, order[..n]), order[n]), order[n])
  }

  ghost predicate Visits(s: Store, t: Thread, order: seq<Conv>) {
    && (forall c :: c in order <==> c in s.routes && s.routes[c] == t)
    && (forall i, j :: 0 <= i < j < |order| ==> order[i] != order[j])
  }

  function NewLife(s: State, t: Thread, archived: bool): State {
    if t == NO_THREAD then s
    else s.(lives := s.lives[t := Lifecycle(s.lifeCounter + 1, archived)], lifeCounter := s.lifeCounter + 1)
  }

  function Archive(s: State, t: Thread, localOrder: seq<Conv>, ownerOrder: seq<Conv>): State {
    if t == NO_THREAD then s
    else NewLife(s.(owner := Forget(s.owner, ownerOrder), archived := s.archived + {t}, local := Forget(s.local, localOrder)), t, true)
  }

  function Unarchive(s: State, t: Thread): State {
    if t == NO_THREAD then s else NewLife(s, t, false).(archived := s.archived - {t})
  }
}
