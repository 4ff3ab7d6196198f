/** The Desktop state replica as a transition system: cached threads, gap queues, follow-ups and snapshot
    requests, and what one broadcast does to them (agent/codex_desktop_state.go,
    agent/codex_desktop_state_queue.go, agent/codex_desktop_state_wire.go). */
module StateReplica {
  import opened Json
  import opened JsonPatch
  import opened Text

  const MAX_THREADS := 512
  const MAX_QUEUED := 300

  /** A thread identifier with surrounding white space removed; empty when the message names no thread. */
  datatype ThreadId = ThreadId(text: string)

  function Id(text: string): ThreadId {
    ThreadId(Trim(text))
  }

  const NO_THREAD := ThreadId("")

  /** What eviction needs to know about a conversation state. */
  datatype View = View(active: bool, requests: bool)

  datatype PatchSet = PatchSet(epoch: nat, base: nat, revision: nat, patches: seq<Patch>)

  datatype FollowUps = FollowUps(epoch: nat, messages: seq<string>, updatedAt: int)

  datatype Snapshot = Snapshot(
    threadId: ThreadId, epoch: nat, revision: nat, raw: Json, view: View,
    followUps: seq<string>, updatedAt: int)

  datatype State = State(
    threads: map<ThreadId, Snapshot>,
    queued: map<ThreadId, seq<PatchSet>>,
    followUps: map<ThreadId, FollowUps>,
    needs: map<ThreadId, nat>)

  /** Broadcasts as they arrive; `clock` gives the successive readings of the local clock. */
  datatype Event =
    | SnapshotEvent(thread: string, epoch: nat, revision: nat, raw: Json, clock: nat -> int)
    | PatchEvent(thread: string, patchSet: PatchSet, clock: nat -> int)
    | FollowUpsEvent(thread: string, followEpoch: nat, messages: seq<string>, clock: nat -> int)

  function RawId(raw: Json): ThreadId {
    if raw.Obj? && Name("id") in raw.fields && raw.fields[Name("id")].Str?
    then Id(raw.fields[Name("id")].s) else NO_THREAD
  }

  function Queue(s: State, t: ThreadId): seq<PatchSet> {
    if t in s.queued then s.queued[t] else []
  }

  function Target(s: State, t: ThreadId): nat {
    if t in s.needs then s.needs[t] else 0
  }

  function Total(queue: seq<PatchSet>): nat {
    if queue == [] then 0 else |queue[0].patches| + Total(queue[1..])
  }

  // ---- Building and attaching ----

  function Build(view: Json -> View, t: ThreadId, epoch: nat, revision: nat, raw: Json, now: int): Snapshot {
    Snapshot(t, epoch, revision, raw, view(raw), [], now)
  }

  /** Follow-ups of the same connection ride along with the snapshot. */
  function Attach(fu: map<ThreadId, FollowUps>, snap: Snapshot): Snapshot {
    if snap.threadId in fu && fu[snap.threadId].epoch == snap.epoch
    then snap.(followUps := fu[snap.threadId].messages) else snap
  }

  /** Follow-ups of an older connection are forgotten. */
  function Keep(fu: map<ThreadId, FollowUps>, snap: Snapshot): map<ThreadId, FollowUps> {
    if snap.threadId in fu && fu[snap.threadId].epoch < snap.epoch then fu - {snap.threadId} else fu
  }

  // ---- Replay of the gap queue ----

  datatype Replayed = Replayed(cur: Snapshot, remaining: seq<PatchSet>, failed: bool)

  /** The set is next in line and applies cleanly. */
  function Advance(view: Json -> View, fu: map<ThreadId, FollowUps>, cur: Snapshot, q: PatchSet, now: int): Option<Snapshot> {
    match ApplyAll(cur.raw, q.patches)
    case None => None
    case Some(next) =>
      if cur.threadId == NO_THREAD || RawId(next) != cur.threadId then None
      else Some(Attach(fu, Build(view, cur.threadId, q.epoch, q.revision, next, now)))
  }

  predicate Obsolete(cur: Snapshot, q: PatchSet) {
    q.epoch != cur.epoch || q.revision <= cur.revision
  }

  /** One pass in queue order.  A set that fails to apply ends the pass and the sets behind it are
      forgotten. */
  function Replay(view: Json -> View, fu: map<ThreadId, FollowUps>, cur: Snapshot, queue: seq<PatchSet>,
                  clock: nat -> int, at: nat): (r: Replayed)
    decreases |queue|
  {
    if queue == [] then Replayed(cur, [], false)
    else
      var q := queue[0];
      if Obsolete(cur, q) then Replay(view, fu, cur, queue[1..], clock, at + 1)
      else if q.base != cur.revision then
        var r := Replay(view, fu, cur, queue[1..], clock, at + 1);
        r.(remaining := [q] + r.remaining)
      else
        match Advance(view, fu, cur, q, clock(at))
        case None => Replayed(cur, [q], true)
        case Some(next) => Replay(view, fu, next, queue[1..], clock, at + 1)
  }

  // ---- Eviction ----

  predicate Idle(snap: Snapshot) {
    !snap.view.active && !snap.view.requests
  }

  predicate Evictable(threads: map<ThreadId, Snapshot>, cur: ThreadId, c: ThreadId) {
    c in threads && c != cur && Idle(threads[c])
  }

  /** The oldest evictable thread; ties may fall either way. */
  ghost predicate Oldest(threads: map<ThreadId, Snapshot>, cur: ThreadId, c: ThreadId) {
    && Evictable(threads, cur, c)
    && forall d :: Evictable(threads, cur, d) ==> threads[c].updatedAt <= threads[d].updatedAt
  }

  ghost predicate AtRest(threads: map<ThreadId, Snapshot>, cur: ThreadId) {
    |threads| <= MAX_THREADS || forall c :: !Evictable(threads, cur, c)
  }

  /** An eviction pass over these threads removes `c` next. */
  ghost predicate Sheds(threads: map<ThreadId, Snapshot>, cur: ThreadId, c: ThreadId) {
    |threads| > MAX_THREADS && Oldest(threads, cur, c)
  }

  function Names(gone: seq<ThreadId>): set<ThreadId> {
    set c | c in gone
  }

  /** Part of an eviction pass: `gone` has been removed so far, in order. */
  ghost predicate Shedding(threads: map<ThreadId, Snapshot>, cur: ThreadId, gone: seq<ThreadId>)
    decreases |gone|
  {
    gone == [] ||
    var n := |gone| - 1;
    Shedding(threads, cur, gone[..n]) && Sheds(threads - Names(gone[..n]), cur, gone[n])
  }

  /** A whole eviction pass. */
  ghost predicate Evictions(threads: map<ThreadId, Snapshot>, cur: ThreadId, gone: seq<ThreadId>) {
    Shedding(threads, cur, gone) && AtRest(threads - Names(gone), cur)
  }

  function Drop(s: State, gone: set<ThreadId>): State {
    State(s.threads - gone, s.queued - gone, s.followUps - gone, s.needs - gone)
  }

  /** Pre-snapshot follow-ups are dropped oldest first, ties by identifier. */
  predicate OlderOrphan(fu: map<ThreadId, FollowUps>, a: ThreadId, b: ThreadId)
    requires a in fu && b in fu
  {
    fu[a].updatedAt < fu[b].updatedAt || (fu[a].updatedAt == fu[b].updatedAt && Less(a.text, b.text))
  }

  /** Lexicographic order of identifiers. */
  predicate Less(a: string, b: string) {
    if a == "" || b == "" then a == "" && b != ""
    else a[0] < b[0] || (a[0] == b[0] && Less(a[1..], b[1..]))
  }

  /** A pass over the follow-ups removes `c` next; `known` are the cached threads. */
  ghost predicate ShedsOrphan(fu: map<ThreadId, FollowUps>, known: set<ThreadId>, cur: ThreadId, c: ThreadId) {
    var orphans := fu.Keys - known;
    && |orphans| > MAX_THREADS && c in orphans && c != cur
    && forall d :: d in orphans && d != cur && d != c ==> !OlderOrphan(fu, d, c)
  }

  ghost predicate SheddingOrphans(fu: map<ThreadId, FollowUps>, known: set<ThreadId>, cur: ThreadId, gone: seq<ThreadId>)
    decreases |gone|
  {
    gone == [] ||
    var n := |gone| - 1;
    SheddingOrphans(fu, known, cur, gone[..n]) && ShedsOrphan(fu - Names(gone[..n]), known, cur, gone[n])
  }

  ghost predicate OrphansAtRest(fu: map<ThreadId, FollowUps>, known: set<ThreadId>, cur: ThreadId) {
    |fu.Keys - known| <= MAX_THREADS || fu.Keys - known <= {cur}
  }

  ghost predicate OrphanEvictions(fu: map<ThreadId, FollowUps>, known: set<ThreadId>, cur: ThreadId, gone: seq<ThreadId>) {
    SheddingOrphans(fu, known, cur, gone) && OrphansAtRest(fu - Names(gone), known, cur)
  }

  // ---- One broadcast ----

  predicate Stale(s: State, t: ThreadId, epoch: nat, revision: nat) {
    t in s.threads &&
    (epoch < s.threads[t].epoch || (epoch == s.threads[t].epoch && revision <= s.threads[t].revision))
  }

  predicate AcceptsSnapshot(s: State, e: Event)
    requires e.SnapshotEvent?
  {
    var t := Id(e.thread);
    t != NO_THREAD && e.raw.Obj? && RawId(e.raw) == t && !Stale(s, t, e.epoch, e.revision)
  }

  /** The snapshot stored, with the follow-ups that belong to its connection. */
  function Updated(s: State, snap: Snapshot): State {
    s.(threads := s.threads[snap.threadId := Attach(Keep(s.followUps, snap), snap)],
       followUps := Keep(s.followUps, snap))
  }

  function StoreQueue(queued: map<ThreadId, seq<PatchSet>>, t: ThreadId, rest: seq<PatchSet>): map<ThreadId, seq<PatchSet>> {
    if rest == [] then queued - {t} else queued[t := rest]
  }

  function ReplayQueue(view: Json -> View, s: State, t: ThreadId, clock: nat -> int): (r: Replayed)
    requires t in s.threads
  {
    Replay(view, s.followUps, s.threads[t], Queue(s, t), clock, 1)
  }

  function StoreReplay(s: State, t: ThreadId, r: Replayed): State {
    State(s.threads[t := r.cur], StoreQueue(s.queued, t, r.remaining), s.followUps, s.needs)
  }

  function Received(view: Json -> View, s: State, e: Event): State
    requires e.SnapshotEvent?
  {
    Updated(s, Build(view, Id(e.thread), e.epoch, e.revision, e.raw, e.clock(0)))
  }

  function Replaying(view: Json -> View, s: State, e: Event): (r: Replayed)
    requires e.SnapshotEvent?
  {
    ReplayQueue(view, Received(view, s, e), Id(e.thread), e.clock)
  }

  /** The snapshot and the replayed queue, before eviction. */
  function Installed(view: Json -> View, s: State, e: Event): State
    requires e.SnapshotEvent?
  {
    StoreReplay(Received(view, s, e), Id(e.thread), Replaying(view, s, e))
  }

  /** The request is settled once the cache has caught up with its target. */
  function Settle(s: State, t: ThreadId, revision: nat): State {
    if Target(s, t) > revision then s else s.(needs := s.needs - {t})
  }

  predicate Contiguous(s: State, t: ThreadId, q: PatchSet) {
    t in s.threads && s.threads[t].epoch == q.epoch && s.threads[t].revision == q.base
  }

  function Enqueued(s: State, t: ThreadId, q: PatchSet): State {
    var queue := Queue(s, t);
    var fits := Total(queue) + |q.patches| <= MAX_QUEUED && |queue| < MAX_QUEUED;
    s.(queued := if fits then s.queued[t := queue + [q]] else s.queued,
       needs := if q.revision > Target(s, t) then s.needs[t := q.revision] else s.needs)
  }

  /** The thread a patch set produces if it is applied at once. */
  function Patched(view: Json -> View, s: State, e: Event): Option<Snapshot>
    requires e.PatchEvent?
  {
    var t := Id(e.thread);
    if t == NO_THREAD || Stale(s, t, e.patchSet.epoch, e.patchSet.revision) || !Contiguous(s, t, e.patchSet) then None
    else
      match ApplyAll(s.threads[t].raw, e.patchSet.patches)
      case None => None
      case Some(next) =>
        if RawId(next) != t then None
        else Some(Build(view, t, e.patchSet.epoch, e.patchSet.revision, next, e.clock(0)))
  }

  predicate AcceptsFollowUps(s: State, e: Event)
    requires e.FollowUpsEvent?
  {
    var t := Id(e.thread);
    t != NO_THREAD && (t in s.threads ==> s.threads[t].epoch <= e.followEpoch) &&
    (t in s.followUps ==> s.followUps[t].epoch <= e.followEpoch)
  }

  function Noted(s: State, e: Event): State
    requires e.FollowUpsEvent?
  {
    s.(followUps := s.followUps[Id(e.thread) := FollowUps(e.followEpoch, e.messages, e.clock(0))])
  }

  /** Follow-ups of the cached connection reach the cached thread at once. */
  function Delivered(s: State, e: Event): State
    requires e.FollowUpsEvent?
  {
    var t := Id(e.thread);
    if t in s.threads && s.threads[t].epoch == e.followEpoch then
      s.(threads := s.threads[t := s.threads[t].(followUps := e.messages, updatedAt := e.clock(1))])
    else s
  }

  /** The choices open to an eviction pass after this event. */
  ghost predicate Allowed(view: Json -> View, s: State, e: Event, gone: seq<ThreadId>) {
    match e
    case SnapshotEvent(_, _, _, _, _) =>
      if AcceptsSnapshot(s, e) && !Replaying(view, s, e).failed then
        Evictions(Installed(view, s, e).threads, Id(e.thread), gone)
      else gone == []
    case PatchEvent(_, _, _) =>
      var p := Patched(view, s, e);
      if p.Some? then Evictions(Updated(s, p.value).threads, Id(e.thread), gone) else gone == []
    case FollowUpsEvent(_, _, _, _) =>
      if AcceptsFollowUps(s, e) then OrphanEvictions(Noted(s, e).followUps, s.threads.Keys, Id(e.thread), gone) else gone == []
  }

  function NextSnapshot(view: Json -> View, s: State, e: Event, gone: seq<ThreadId>): State
    requires e.SnapshotEvent?
  {
    if !AcceptsSnapshot(s, e) then s
    else Settle(Drop(Installed(view, s, e), Names(gone)), Id(e.thread), Replaying(view, s, e).cur.revision)
  }

  function NextPatch(view: Json -> View, s: State, e: Event, gone: seq<ThreadId>): State
    requires e.PatchEvent?
  {
    var t, q := Id(e.thread), e.patchSet;
    if t == NO_THREAD || Stale(s, t, q.epoch, q.revision) then s
    else if !Contiguous(s, t, q) then Enqueued(s, t, q)
    else
      var p := Patched(view, s, e);
      if p.Some? then Drop(Updated(s, p.value), Names(gone)) else s
  }

  function NextFollowUps(s: State, e: Event, gone: seq<ThreadId>): State
    requires e.FollowUpsEvent?
  {
    if !AcceptsFollowUps(s, e) then s
    else
      var n := Noted(s, e);
      Delivered(n.(followUps := n.followUps - Names(gone)), e)
  }

  function Next(view: Json -> View, s: State, e: Event, gone: seq<ThreadId>): State {
    match e
    case SnapshotEvent(_, _, _, _, _) => NextSnapshot(view, s, e, gone)
    case PatchEvent(_, _, _) => NextPatch(view, s, e, gone)
    case FollowUpsEvent(_, _, _, _) => NextFollowUps(s, e, gone)
  }

  /** The event is reported as applied: it changed a cached thread. */
  predicate Applied(view: Json -> View, s: State, e: Event) {
    match e
    case SnapshotEvent(_, _, _, _, _) => AcceptsSnapshot(s, e)
    case PatchEvent(_, _, _) => Patched(view, s, e).Some?
    case FollowUpsEvent(_, _, _, _) =>
      AcceptsFollowUps(s, e) && Id(e.thread) in s.threads && s.threads[Id(e.thread)].epoch == e.followEpoch
  }
}
