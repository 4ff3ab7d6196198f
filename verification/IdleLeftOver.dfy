/** A run of the state store in which an applied update leaves more than the limit of threads with an idle one
    that is not current: follow-ups evict nothing (agent/codex_desktop_state_wire.go). */
module IdleLeftOver {
  import opened Json
  import Text
  import opened StateReplica
  import opened ReplicaSafety

  // ---- Threads and their states ----

  /** The name of thread `k`. */
  function Label(k: nat): (s: string)
    ensures |s| == k + 1
  {
    seq(k + 1, i => 'x')
  }

  function Nth(k: nat): ThreadId {
    ThreadId(Label(k))
  }

  lemma {:induction false} LabelIsTrimmed(k: nat)
    ensures Id(Label(k)) == Nth(k) && Nth(k) != NO_THREAD
  {
    var s := Label(k);
    assert s[0] == 'x' && s[|s| - 1] == 'x';
    assert Text.Trim(s) == s;
  }

  /** A conversation state of the thread, busy or idle. */
  function Doc(k: nat, busy: bool): Json {
    Obj(if busy then map[Name("id") := Str(Label(k)), Name("busy") := Null] else map[Name("id") := Str(Label(k))])
  }

  function Busy(raw: Json): View {
    View(raw.Obj? && Name("busy") in raw.fields, false)
  }

  lemma {:induction false} DocFacts(k: nat, busy: bool)
    ensures Doc(k, busy).Obj? && RawId(Doc(k, busy)) == Nth(k) && Busy(Doc(k, busy)) == View(busy, false)
  {
    LabelIsTrimmed(k);
    assert "id" != "busy";
    assert Doc(k, busy).fields[Name("id")] == Str(Label(k));
  }

  function Snap(k: nat, revision: nat, busy: bool): Event {
    SnapshotEvent(Label(k), 1, revision, Doc(k, busy), _ => 0)
  }

  function Entry(k: nat, revision: nat, busy: bool): Snapshot {
    Snapshot(Nth(k), 1, revision, Doc(k, busy), View(busy, false), [], 0)
  }

  /** Nothing queued, remembered or asked for. */
  function Quiet(threads: map<ThreadId, Snapshot>): State {
    State(threads, map[], map[], map[])
  }

  lemma {:induction false} QuietInstalls(threads: map<ThreadId, Snapshot>, k: nat, revision: nat, busy: bool)
    requires Nth(k) in threads ==> threads[Nth(k)].epoch == 1 && threads[Nth(k)].revision < revision
    ensures var s, e := Quiet(threads), Snap(k, revision, busy);
            && AcceptsSnapshot(s, e) && Replaying(Busy, s, e) == Replayed(Entry(k, revision, busy), [], false)
            && Installed(Busy, s, e) == Quiet(threads[Nth(k) := Entry(k, revision, busy)])
  {
    var s, e := Quiet(threads), Snap(k, revision, busy);
    LabelIsTrimmed(k);
    DocFacts(k, busy);
    assert Received(Busy, s, e) == Quiet(threads[Nth(k) := Entry(k, revision, busy)]);
  }

  /** A newer snapshot on a quiet store is stored, and evicts nothing if all other threads are busy. */
  lemma {:induction false} QuietSnapshot(threads: map<ThreadId, Snapshot>, k: nat, revision: nat, busy: bool)
    requires Nth(k) in threads ==> threads[Nth(k)].epoch == 1 && threads[Nth(k)].revision < revision
    requires forall t :: t in threads && t != Nth(k) ==> threads[t].view.active
    ensures Allowed(Busy, Quiet(threads), Snap(k, revision, busy), [])
    ensures Next(Busy, Quiet(threads), Snap(k, revision, busy), []) == Quiet(threads[Nth(k) := Entry(k, revision, busy)])
  {
    QuietInstalls(threads, k, revision, busy);
    LabelIsTrimmed(k);
    var m := threads[Nth(k) := Entry(k, revision, busy)];
    assert Names([]) == {} && m - {} == m;
    assert AtRest(m, Nth(k));
  }

  // ---- The run ----

  function Last(states: seq<State>): State
    requires states != []
  {
    states[|states| - 1]
  }

  lemma {:induction false} OldLinks(view: Json -> View, states: seq<State>, moves: seq<Move>, n: State, m: Move, i: nat)
    requires Run(view, states, moves) && i < |moves|
    ensures Links(view, states + [n], moves + [m], i) && Permits(view, states + [n], moves + [m], i)
  {
    var more, all := states + [n], moves + [m];
    assert Links(view, states, moves, i) && Permits(view, states, moves, i);
    assert more[i] == states[i] && more[i + 1] == states[i + 1] && all[i] == moves[i];
  }

  lemma {:induction false} NewLink(view: Json -> View, states: seq<State>, moves: seq<Move>, n: State, m: Move)
    requires |states| == |moves| + 1 && Allowed(view, Last(states), m.event, m.gone) && n == Next(view, Last(states), m.event, m.gone)
    ensures Links(view, states + [n], moves + [m], |moves|) && Permits(view, states + [n], moves + [m], |moves|)
  {
    var more, all := states + [n], moves + [m];
    assert more[|moves|] == Last(states) && more[|moves| + 1] == n && all[|moves|] == m;
  }

  /** A run and one move more. */
  lemma {:induction false} Extend(view: Json -> View, states: seq<State>, moves: seq<Move>, n: State, m: Move)
    requires Run(view, states, moves) && Allowed(view, Last(states), m.event, m.gone) && n == Next(view, Last(states), m.event, m.gone)
    ensures Run(view, states + [n], moves + [m])
  {
    NewLink(view, states, moves, n, m);
    forall i | 0 <= i < |moves| ensures Links(view, states + [n], moves + [m], i) && Permits(view, states + [n], moves + [m], i) {
      OldLinks(view, states, moves, n, m, i);
    }
  }

  /** One snapshot more. */
  lemma {:induction false} Gather(states: seq<State>, moves: seq<Move>, threads: map<ThreadId, Snapshot>, k: nat, revision: nat, busy: bool)
    returns (more: seq<State>, all: seq<Move>)
    requires Run(Busy, states, moves) && Last(states) == Quiet(threads)
    requires Nth(k) in threads ==> threads[Nth(k)].epoch == 1 && threads[Nth(k)].revision < revision
    requires forall t :: t in threads && t != Nth(k) ==> threads[t].view.active
    ensures Run(Busy, more, all) && Last(more) == Quiet(threads[Nth(k) := Entry(k, revision, busy)])
  {
    var n, m := Quiet(threads[Nth(k) := Entry(k, revision, busy)]), Move(Snap(k, revision, busy), []);
    QuietSnapshot(threads, k, revision, busy);
    Extend(Busy, states, moves, n, m);
    more, all := states + [n], moves + [m];
  }

  /** The first `n` threads, all busy. */
  function Crowd(n: nat): (threads: map<ThreadId, Snapshot>) {
    if n == 0 then map[] else Crowd(n - 1)[Nth(n - 1) := Entry(n - 1, 1, true)]
  }

  lemma {:induction false} CrowdFacts(n: nat)
    ensures |Crowd(n)| == n
    ensures forall t :: t in Crowd(n) ==> |t.text| <= n && Crowd(n)[t].view.active && Crowd(n)[t].epoch == 1 && Crowd(n)[t].revision == 1
    ensures forall k :: 0 <= k < n ==> Nth(k) in Crowd(n)
  {
    if n > 0 {
      CrowdFacts(n - 1);
      assert Nth(n - 1) !in Crowd(n - 1);
      OneThreadFewer(Crowd(n), Nth(n - 1));
      assert Crowd(n) - {Nth(n - 1)} == Crowd(n - 1);
    }
  }

  lemma {:induction false} CrowdGathers(n: nat) returns (states: seq<State>, moves: seq<Move>)
    ensures Run(Busy, states, moves) && Last(states) == Quiet(Crowd(n))
  {
    if n == 0 {
      states, moves := [Start()], [];
    } else {
      states, moves := CrowdGathers(n - 1);
      CrowdFacts(n - 1);
      states, moves := Gather(states, moves, Crowd(n - 1), n - 1, 1, true);
    }
  }

  /** The same threads, of which thread 0 has become idle; as the current one it is spared. */
  function OneIdle(n: nat): (threads: map<ThreadId, Snapshot>) {
    Crowd(n)[Nth(0) := Entry(0, 2, false)]
  }

  lemma {:induction false} OneIdleFacts(n: nat)
    requires n > 1
    ensures |OneIdle(n)| == n && Nth(0) != Nth(1) && Nth(1) in OneIdle(n) && OneIdle(n)[Nth(1)].epoch == 1
    ensures Nth(0) in OneIdle(n) && Idle(OneIdle(n)[Nth(0)])
  {
    CrowdFacts(n);
    assert OneIdle(n).Keys == Crowd(n).Keys;
  }

  lemma {:induction false} OneIdleIsReached(n: nat) returns (states: seq<State>, moves: seq<Move>)
    ensures Run(Busy, states, moves) && Last(states) == Quiet(OneIdle(n))
  {
    states, moves := CrowdGathers(n);
    CrowdFacts(n);
    states, moves := Gather(states, moves, Crowd(n), 0, 2, false);
  }

  /** For any number of threads beyond the limit: the last update of this run is applied, it is about thread 1,
      and thread 0 is left idle. */
  lemma {:induction false} FollowUpsLeaveIdle(n: nat) returns (states: seq<State>, moves: seq<Move>, e: Event)
    requires n > MAX_THREADS
    ensures Run(Busy, states, moves) && |moves| > 0 && moves[|moves| - 1].event == e
    ensures Applied(Busy, states[|moves| - 1], e) && !Stumbles(Busy, states[|moves| - 1], e)
    ensures !AtRest(Last(states).threads, Id(e.thread))
  {
    var before, most := OneIdleIsReached(n);
    OneIdleFacts(n);
    LabelIsTrimmed(1);
    e := FollowUpsEvent(Label(1), 1, [], _ => 0);
    FollowUpsOnQuiet(OneIdle(n), e);
    var after := Next(Busy, Quiet(OneIdle(n)), e, []);
    Extend(Busy, before, most, after, Move(e, []));
    states, moves := before + [after], most + [Move(e, [])];
    assert Evictable(after.threads, Id(e.thread), Nth(0));
  }

  lemma {:induction false} FollowUpsOnQuiet(threads: map<ThreadId, Snapshot>, e: Event)
    requires e.FollowUpsEvent? && Id(e.thread) != NO_THREAD && Id(e.thread) in threads && threads[Id(e.thread)].epoch == e.followEpoch
    ensures Allowed(Busy, Quiet(threads), e, []) && Applied(Busy, Quiet(threads), e)
    ensures var n := Next(Busy, Quiet(threads), e, []).threads;
            |n| == |threads| && forall c :: c != Id(e.thread) && c in threads ==> c in n && n[c].view == threads[c].view
  {
    var s := Quiet(threads);
    assert Noted(s, e).followUps.Keys - threads.Keys == {};
    assert Names([]) == {} && Noted(s, e).followUps - {} == Noted(s, e).followUps;
    assert OrphansAtRest(Noted(s, e).followUps, threads.Keys, Id(e.thread));
    FollowUpsOnly(s, e, []);
    assert |Next(Busy, s, e, []).threads.Keys| == |threads.Keys|;
  }
}
