/** What each critical section of the Desktop client does to its fields, and that a request on a connected client
    is answered if the peer answers (agent/codex_desktop_client_state.go, agent/codex_desktop_client_send.go,
    agent/codex_desktop_client_read.go). */
module ClientEffects {
  import opened Json
  import opened DesktopClient
  import opened ClientSafety

  // ---- Connections ----

  /** A snapshot may be used exactly while its connection stands on an open client that is initialized; one
      taken for initialization also before that. */
  lemma {:induction false} MatchesExactly(c: Client<nat>, conn: nat, epoch: nat)
    ensures Matches(c, Ref(conn, epoch, false)) <==>
              !c.closed && c.conn == Some(conn) && c.epoch == epoch && c.identified && !c.connecting
    ensures Matches(c, Ref(conn, epoch, true)) <==>
              !c.closed && c.conn == Some(conn) && c.epoch == epoch && (c.identified || c.connecting)
  {
  }

  /** One dial at a time, and only by an open client that is not connected; a new connection takes the next
      epoch; initialization completes for the connection that was initialized and no other; a failed dial may
      be repeated. */
  lemma {:induction false} ConnectionSteps(c: Client<nat>, conn: nat, r: Ref)
    ensures BeginConnect(c) == Some(c.(connecting := true)) <==>
              !c.closed && !c.connecting && !(c.conn.Some? && c.identified)
    ensures BeginConnect(c).None? <==> c.closed || c.connecting || (c.conn.Some? && c.identified)
    ensures DialFailed(c) == c.(connecting := false)
    ensures c.closed ==> Install(c, conn) == (c.(connecting := false), None)
    ensures !c.closed ==>
              Install(c, conn) == (c.(epoch := c.epoch + 1, conn := Some(conn), identified := false), Some(Ref(conn, c.epoch + 1, true)))
    ensures FinishInitialize(c, r) ==
              if c.conn == Some(r.conn) && c.epoch == r.epoch then Some(c.(identified := true, connecting := false)) else None
  {
  }

  /** From any open client without a connection, a dial that succeeds and is initialized connects it, under the next
      epoch. */
  lemma {:induction false} Connects(s: System) returns (states: seq<System>, steps: seq<Step>)
    requires !s.client.closed && !s.client.connecting && s.client.conn.None?
    ensures Path(states, steps) && states[0] == s
    ensures var c := states[|steps|].client;
            && c.conn == Some(s.conns) && c.epoch == s.client.epoch + 1 && c.identified && !c.connecting && !c.closed
            && c.waiting == s.client.waiting && Matches(c, Ref(s.conns, c.epoch, false))
  {
    var a := Do(s, DoBeginConnect);
    var b := Do(a, DoInstall);
    var step := DoFinishInitialize(Ref(s.conns, s.client.epoch + 1, true));
    states, steps := [s, a, b, Do(b, step)], [DoBeginConnect, DoInstall, step];
  }

  // ---- Waiters ----

  /** A waiter is registered exactly on a connection that may be used and under an id that nobody waits for. */
  lemma {:induction false} RegisterExactly(c: Client<nat>, k: Key, w: nat, r: Ref)
    ensures Register(c, k, w, r).Some? <==> Matches(c, r) && k !in c.waiting
    ensures Register(c, k, w, r).Some? ==> Register(c, k, w, r).value == c.(waiting := c.waiting[k := w])
  {
  }

  /** A waiter that gives up leaves its place, unless another has taken it over; everybody else stays. */
  lemma {:induction false} RemoveExactly(c: Client<nat>, k: Key, w: nat)
    ensures var n := Remove(c, k, w);
            && n == c.(waiting := n.waiting)
            && (k in c.waiting && c.waiting[k] == w ==> n.waiting == map l | l in c.waiting && l != k :: c.waiting[l])
            && (k !in c.waiting || c.waiting[k] != w ==> n.waiting == c.waiting)
  {
    assert c.waiting - {k} == map l | l in c.waiting && l != k :: c.waiting[l];
  }

  /** A response takes the waiter of its id out of the table and decides to send to it; without one it does
      nothing. */
  lemma {:induction false} RespondExactly(s: System, k: Key)
    ensures var n := Do(s, DoRespond(k));
            && n.client == s.client.(waiting := map l | l in s.client.waiting && l != k :: s.client.waiting[l])
            && n.jobs == s.jobs + (if k in s.client.waiting then {Job(s.clock, k, s.client.waiting[k], false)} else {})
            && n.sent == s.sent && n.drafts == s.drafts && n.frames == s.frames
  {
    assert s.client.waiting - {k} == map l | l in s.client.waiting && l != k :: s.client.waiting[l];
  }

  /** A frame that was written whole marks the call and the discovery that wait under its id, and nobody else. */
  lemma {:induction false} MarkExactly(c: Client<nat>, id: Id)
    ensures var n := MarkWritten(c, id);
            && n == c.(written := n.written)
            && forall w :: w in n.written <==>
                 w in c.written || (Key(Call, id) in c.waiting && c.waiting[Key(Call, id)] == w)
                 || (Key(Discovery, id) in c.waiting && c.waiting[Key(Discovery, id)] == w)
  {
  }

  /** Losing the current connection empties the table and hands out its waiters; losing another changes
      nothing. */
  lemma {:induction false} DisconnectExactly(c: Client<nat>, r: Ref)
    ensures c.conn == Some(r.conn) && c.epoch == r.epoch ==>
              Disconnect(c, r) == (c.(conn := None, identified := false, connecting := false, waiting := map[]), c.waiting)
    ensures c.conn != Some(r.conn) || c.epoch != r.epoch ==> Disconnect(c, r) == (c, map[])
  {
  }

  /** Closing says so and leaves the rest to the teardown; from then on nobody dials, registers or writes, on any
      snapshot. */
  lemma {:induction false} CloseExactly(s: System, k: Key, w: nat, r: Ref)
    ensures var n := Do(s, DoClose);
            && n.client == s.client.(closed := true)
            && n.lock == s.lock && n.drafts == s.drafts && n.jobs == s.jobs && n.sent == s.sent && n.frames == s.frames
            && BeginConnect(n.client).None? && Register(n.client, k, w, r).None? && !Matches(n.client, r)
  {
  }

  // ---- Writing ----

  /** A request is written at most once, and only while its connection may be used; a writer holds the lock from
      the start of its frame to its end. */
  lemma {:induction false} WritingSteps(s: System, w: nat, r: Ref, id: Id)
    ensures Enabled(s, DoStartRequest(w)) <==> s.lock.Free? && w in s.drafts
    ensures Enabled(s, DoStartRequest(w)) ==>
              var n, d := Do(s, DoStartRequest(w)), s.drafts[w];
              && w !in n.drafts && n.client == s.client && n.jobs == s.jobs
              && n.lock == if Matches(s.client, d.ref) then Writing(d.ref, Own(w, d.id)) else Free
    ensures Enabled(s, DoStartOther(r, id)) <==> s.lock.Free?
    ensures s.lock.Free? ==>
              Do(s, DoStartOther(r, id)).lock == if Matches(s.client, r) then Writing(r, Other(id)) else Free
    ensures Enabled(s, DoTeardown(r)) <==> s.lock.Free?
  {
  }

  /** A frame written whole frees the lock, counts as written and marks its id; one that failed takes its own
      connection down. */
  lemma {:induction false} WriteEnds(s: System)
    requires s.lock.Writing?
    ensures var n, f := Do(s, DoFinishWrite(true)), s.lock.frame;
            && n.lock.Free? && n.client == MarkWritten(s.client, f.id) && n.jobs == s.jobs && n.drafts == s.drafts
            && n.frames == s.frames + (if f.Own? then {f.waiter} else {})
    ensures var n, r := Do(s, DoFinishWrite(false)), s.lock.ref;
            && n.lock.Free? && n.frames == s.frames && n.drafts == s.drafts && n.client == Disconnect(s.client, r).0
            && (s.client.conn == Some(r.conn) && s.client.epoch == r.epoch ==>
                  forall k :: k in s.client.waiting ==> Job(s.clock, k, s.client.waiting[k], true) in n.jobs)
  {
    TeardownIsExact(s, s.lock.ref);
  }

  /** What a waiter is told: the answer, or that its request was not delivered, or that nobody knows. */
  lemma {:induction false} SendExactly(s: System, j: Job)
    requires j in s.jobs && j !in s.sent
    ensures var n := Do(s, DoSend(j));
            && n.sent == s.sent[j := if !j.lost then Answered else if j.waiter in s.client.written then DeliveryUnknown else NotDelivered]
            && n.jobs == s.jobs && n.client == s.client
  {
  }

  // ---- A request is answered ----

  /** A continuation of a state. */
  ghost predicate Path(states: seq<System>, steps: seq<Step>) {
    && |states| == |steps| + 1
    && forall n :: 0 <= n < |steps| ==> Enabled(states[n], steps[n]) && states[n + 1] == Do(states[n], steps[n])
  }

  /** Main theorem: on a connected client with a free write lock, a request under an id that nobody waits for is
      registered, written once, marked as written and, if the peer answers, told so. */
  lemma {:induction false} RequestIsAnswered(s: System, k: Key, conn: nat) returns (states: seq<System>, steps: seq<Step>, job: Job)
    requires s.lock.Free? && !s.client.closed && s.client.conn == Some(conn) && s.client.identified && !s.client.connecting
    requires k !in s.client.waiting && forall j :: j in s.sent ==> j.at < s.clock
    ensures Path(states, steps) && states[0] == s
    ensures var n := states[|steps|];
            && job.waiter == s.waiters && job.key == k && !job.lost
            && job in n.sent && n.sent[job] == Answered && job.waiter in n.frames && job.waiter in n.client.written
            && n.client.waiting == s.client.waiting && n.client.conn == s.client.conn && n.lock.Free?
  {
    var a, b := WrittenWhole(s, k, conn);
    var w := s.waiters;
    var c := WrittenIsMarked(b, k, w);
    var d, e := AnswerIsSent(c, k, w);
    job := Job(c.clock, k, w, false);
    assert d.client.waiting == s.client.waiting;
    states := [s, a, b, c, d, e];
    steps := [DoRegister(k, Ref(conn, s.client.epoch, false)), DoStartRequest(w), DoFinishWrite(true), DoRespond(k), DoSend(job)];
    assert states[1] == Do(states[0], steps[0]) && states[2] == Do(states[1], steps[1]) && states[3] == Do(states[2], steps[2]);
    assert states[4] == Do(states[3], steps[3]) && states[5] == Do(states[4], steps[4]);
  }

  lemma {:induction false} WrittenIsMarked(b: System, k: Key, w: nat) returns (c: System)
    requires b.lock.Writing? && b.lock.frame == Own(w, k.id) && k in b.client.waiting && b.client.waiting[k] == w
    ensures c == Do(b, DoFinishWrite(true))
    ensures w in c.frames && w in c.client.written && c.lock.Free? && c.sent == b.sent && c.clock == b.clock + 1
    ensures c.client == b.client.(written := c.client.written)
  {
    c := Do(b, DoFinishWrite(true));
    MarkExactly(b.client, k.id);
    assert k == if k.kind.Call? then Key(Call, k.id) else Key(Discovery, k.id);
  }

  lemma {:induction false} AnswerIsSent(c: System, k: Key, w: nat) returns (d: System, e: System)
    requires k in c.client.waiting && c.client.waiting[k] == w && (forall j :: j in c.sent ==> j.at < c.clock)
    ensures var job := Job(c.clock, k, w, false);
            && d == Do(c, DoRespond(k)) && Enabled(d, DoSend(job)) && e == Do(d, DoSend(job))
            && job in e.sent && e.sent[job] == Answered
            && d.client.waiting == (map l | l in c.client.waiting && l != k :: c.client.waiting[l])
            && e.client == d.client == c.client.(waiting := d.client.waiting) && e.frames == c.frames && e.lock == c.lock
  {
    d := Do(c, DoRespond(k));
    RespondExactly(c, k);
    var job := Job(c.clock, k, w, false);
    e := Do(d, DoSend(job));
    SendExactly(d, job);
  }

  /** Registering a request and starting to write it. */
  lemma {:induction false} WrittenWhole(s: System, k: Key, conn: nat) returns (a: System, b: System)
    requires s.lock.Free? && !s.client.closed && s.client.conn == Some(conn) && s.client.identified && !s.client.connecting
    requires k !in s.client.waiting
    ensures var r := Ref(conn, s.client.epoch, false);
            && a == Do(s, DoRegister(k, r)) && Enabled(a, DoStartRequest(s.waiters)) && b == Do(a, DoStartRequest(s.waiters))
            && b.lock == Writing(r, Own(s.waiters, k.id)) && b.client == s.client.(waiting := s.client.waiting[k := s.waiters])
            && b.sent == s.sent && b.clock == s.clock + 2
  {
    var r := Ref(conn, s.client.epoch, false);
    MatchesExactly(s.client, conn, s.client.epoch);
    RegisterExactly(s.client, k, s.waiters, r);
    a := Do(s, DoRegister(k, r));
    assert a.drafts[s.waiters] == Draft(r, k.id) && a.client == s.client.(waiting := s.client.waiting[k := s.waiters]);
    b := Do(a, DoStartRequest(s.waiters));
  }
}
