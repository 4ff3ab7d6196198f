/** What every run of the Desktop client keeps about its waiters. */
module ClientSafety {
  import opened Json
  import opened DesktopClient

  ghost predicate Run(states: seq<System>, steps: seq<Step>) {
    && |states| == |steps| + 1 && states[0] == NewSystem()
    && forall n :: 0 <= n < |steps| ==> Link(states, steps, n)
  }

  ghost predicate Link(states: seq<System>, steps: seq<Step>, n: nat)
    requires n < |steps| < |states|
  {
    Enabled(states[n], steps[n]) && states[n + 1] == Do(states[n], steps[n])
  }

  // ---- Connections ----

  /** Waiters exist only on a connection, and a new connection starts without any. */
  ghost predicate Connecting(s: System) {
    && (s.dialing ==> s.client.connecting && s.client.conn.None?)
    && (s.client.conn.None? ==> s.client.waiting == map[])
    && (s.client.conn.Some? && !s.client.connecting ==> s.client.identified)
  }

  lemma {:induction false} WriteKeepsConnecting(s: System, ok: bool)
    requires Connecting(s) && s.lock.Writing?
    ensures Connecting(DoneWriting(s, ok))
  {
  }

  lemma {:induction false} StepKeepsConnecting(s: System, a: Step)
    requires Connecting(s) && Enabled(s, a)
    ensures Connecting(Do(s, a))
  {
    if a.DoFinishWrite? {
      WriteKeepsConnecting(s, a.ok);
    }
  }

  // ---- One completion per waiter ----

  /** Waiters are known, wait in one place, and are told once. */
  ghost predicate ToldOnce(s: System) {
    && (forall k :: k in s.client.waiting ==> s.client.waiting[k] < s.waiters)
    && (forall j :: j in s.jobs ==> j.waiter < s.waiters && j.at < s.clock)
    && (forall k, l :: k in s.client.waiting && l in s.client.waiting && s.client.waiting[k] == s.client.waiting[l] ==> k == l)
    && (forall k, j :: k in s.client.waiting && j in s.jobs ==> s.client.waiting[k] != j.waiter)
    && (forall i, j :: i in s.jobs && j in s.jobs && i.waiter == j.waiter ==> i == j)
  }

  /** A step that decides no send and adds no waiter. */
  lemma {:induction false} QuietKeepsToldOnce(s: System, n: System)
    requires ToldOnce(s) && n.jobs == s.jobs && n.waiters >= s.waiters && n.clock >= s.clock
    requires forall k :: k in n.client.waiting ==> k in s.client.waiting && n.client.waiting[k] == s.client.waiting[k]
    ensures ToldOnce(n)
  {
  }

  lemma {:induction false} TeardownKeepsToldOnce(s: System, r: Ref)
    requires ToldOnce(s)
    ensures ToldOnce(Teardown(s, r).(clock := s.clock + 1, lock := Free))
  {
  }

  lemma {:induction false} RespondKeepsToldOnce(s: System, k: Key)
    requires ToldOnce(s)
    ensures ToldOnce(Responding(s, k).(clock := s.clock + 1))
  {
  }

  lemma {:induction false} RegisterKeepsToldOnce(s: System, k: Key, r: Ref)
    requires ToldOnce(s)
    ensures ToldOnce(Registering(s, k, r).(clock := s.clock + 1))
  {
  }

  lemma {:induction false} StepKeepsToldOnce(s: System, a: Step)
    requires ToldOnce(s) && Enabled(s, a)
    ensures ToldOnce(Do(s, a))
  {
    match a
    case DoTeardown(r) => TeardownKeepsToldOnce(s.(lock := Free), r);
    case DoRespond(k) => RespondKeepsToldOnce(s, k);
    case DoRegister(k, r) => RegisterKeepsToldOnce(s, k, r);
    case DoFinishWrite(ok) =>
      if ok {
        QuietKeepsToldOnce(s, Do(s, a));
      } else {
        TeardownKeepsToldOnce(s, s.lock.ref);
      }
    case _ => QuietKeepsToldOnce(s, Do(s, a));
  }

  /** Main theorem, first part: in every run each waiter is sent at most one result, so its one-slot channel
      is empty when the send happens; and a waiter that still waits has been sent none. */
  lemma {:induction false} RunTellsOnce(states: seq<System>, steps: seq<Step>, n: nat)
    requires Run(states, steps) && n <= |steps|
    ensures ToldOnce(states[n]) && Connecting(states[n])
  {
    if n > 0 {
      RunTellsOnce(states, steps, n - 1);
      assert Link(states, steps, n - 1);
      StepKeepsToldOnce(states[n - 1], steps[n - 1]);
      StepKeepsConnecting(states[n - 1], steps[n - 1]);
    }
  }

  // ---- Teardown ----

  /** A teardown of the current connection decides a send for every waiter; one of any other connection
      changes nothing. */
  lemma {:induction false} TeardownIsExact(s: System, r: Ref)
    ensures !SameConnection(s.client, r) ==> Teardown(s, r) == s
    ensures SameConnection(s.client, r) ==>
              var n := Teardown(s, r);
              && n.client.waiting == map[] && n.client.conn.None?
              && (forall k :: k in s.client.waiting ==> Job(s.clock, k, s.client.waiting[k], true) in n.jobs)
              && (forall j :: j in n.jobs && j !in s.jobs ==> j.lost && j.key in s.client.waiting && s.client.waiting[j.key] == j.waiter)
  {
    var (c, detached) := Disconnect(s.client, r);
    if !SameConnection(s.client, r) {
      assert LostJobs(s.clock, detached) == {};
    }
  }

  /** A snapshot of a connection that is gone never matches again. */
  ghost predicate Gone(c: Client<nat>, r: Ref) {
    r.epoch < c.epoch || (r.epoch == c.epoch && c.conn.None?)
  }

  lemma {:induction false} GoneStaysGone(s: System, a: Step, r: Ref)
    requires Enabled(s, a) && Gone(s.client, r)
    ensures Gone(Do(s, a).client, r) && !SameConnection(s.client, r)
  {
  }

  // ---- Delivery ----

  /** Who a frame with this id would mark. */
  function Marked(c: Client<nat>, id: Id): set<nat> {
    At(c, Key(Call, id)) + At(c, Key(Discovery, id))
  }

  /** The mark says exactly whether the waiter's frame was fully written. */
  ghost predicate Exact(s: System) {
    forall k :: k in s.client.waiting ==> (s.client.waiting[k] in s.client.written <==> s.client.waiting[k] in s.frames)
  }

  /** A finished write keeps the marks exact if and only if its id marks no waiter other than its own that
      still has its frame to write. */
  lemma {:induction false} MarkIsExactExactly(s: System)
    requires s.lock.Writing? && Exact(s) && ToldOnce(s)
    requires s.lock.frame.Own? ==>
               forall k :: k in s.client.waiting && s.client.waiting[k] == s.lock.frame.waiter ==> k.id == s.lock.frame.id
    ensures Exact(DoneWriting(s, true)) <==>
              forall w :: w in Marked(s.client, s.lock.frame.id) ==>
                w in s.frames || (s.lock.frame.Own? && w == s.lock.frame.waiter)
  {
    var f := s.lock.frame;
    var n := DoneWriting(s, true);
    forall w | w in Marked(s.client, f.id)
      ensures exists k :: k in s.client.waiting && s.client.waiting[k] == w
      ensures w in n.client.written
    {
      var k := if w in At(s.client, Key(Call, f.id)) then Key(Call, f.id) else Key(Discovery, f.id);
      assert k in s.client.waiting && s.client.waiting[k] == w;
    }
    forall k | k in s.client.waiting && k.id == f.id ensures s.client.waiting[k] in Marked(s.client, f.id) {
      if k.kind.Call? {
        assert k == Key(Call, f.id);
      } else {
        assert k == Key(Discovery, f.id);
      }
    }
  }

  /** Frames carry the id under which their waiter is registered, and the frame being written is that of a
      waiter that has not been lost. */
  ghost predicate Labels(s: System) {
    && (forall k :: k in s.client.waiting && s.client.waiting[k] in s.drafts ==> s.drafts[s.client.waiting[k]].id == k.id)
    && (s.lock.Writing? && s.lock.frame.Own? ==> OwnLabel(s, s.lock.frame.waiter, s.lock.frame.id))
  }

  ghost predicate OwnLabel(s: System, w: nat, id: Id) {
    && w < s.waiters && w !in s.drafts
    && (forall j :: j in s.jobs && j.lost ==> j.waiter != w)
    && (forall k :: k in s.client.waiting && s.client.waiting[k] == w ==> k.id == id)
  }

  /** Unwritten requests belong to the present or an earlier epoch; those of lost waiters are too late. */
  ghost predicate Drafts(s: System) {
    && (forall w :: w in s.drafts ==> w < s.waiters && s.drafts[w].ref.epoch <= s.client.epoch)
    && (forall j :: j in s.jobs && j.lost && j.waiter in s.drafts ==> Gone(s.client, s.drafts[j.waiter].ref))
    && (forall w :: w in s.client.written ==> w < s.waiters) && (forall w :: w in s.frames ==> w < s.waiters)
  }

  ghost predicate Filed(s: System) {
    ToldOnce(s) && Labels(s) && Drafts(s)
  }

  /** What lost waiters are told, or will be, is whether their frame was fully written. */
  ghost predicate LostExact(s: System) {
    && (forall j :: j in s.jobs && j.lost ==> (j.waiter in s.client.written <==> j.waiter in s.frames))
    && (forall j :: j in s.sent ==> j in s.jobs)
    && (forall j :: j in s.sent && j.lost ==> s.sent[j] == if j.waiter in s.frames then DeliveryUnknown else NotDelivered)
    && (forall j :: j in s.sent && !j.lost ==> s.sent[j] == Answered)
  }

  /** The step finishes a frame whose id is that of another waiter with a frame still to be written. */
  ghost predicate Misdirects(s: System, a: Step) {
    a.DoFinishWrite? && a.ok && s.lock.Writing? && exists w :: w in Marked(s.client, s.lock.frame.id) && Strays(s, w)
  }

  predicate Strays(s: System, w: nat)
    requires s.lock.Writing?
  {
    w !in s.frames && !(s.lock.frame.Own? && w == s.lock.frame.waiter)
  }

  /** A teardown now would tell each waiter that delivery is unknown exactly if its frame was fully written. */
  ghost predicate TellsTruth(s: System) {
    forall k, r :: k in s.client.waiting && SameConnection(s.client, r) ==>
      (OutcomeOf(Teardown(s, r).client, Job(s.clock, k, s.client.waiting[k], true)) == DeliveryUnknown
       <==> s.client.waiting[k] in s.frames)
  }

  /** Exact marks are exactly truthful teardowns. */
  lemma {:induction false} ExactTellsTruth(s: System)
    requires Connecting(s)
    ensures Exact(s) <==> TellsTruth(s)
  {
    if TellsTruth(s) && s.client.conn.Some? {
      var r := Ref(s.client.conn.value, s.client.epoch, false);
      forall k | k in s.client.waiting ensures s.client.waiting[k] in s.client.written <==> s.client.waiting[k] in s.frames {
        assert OutcomeOf(Teardown(s, r).client, Job(s.clock, k, s.client.waiting[k], true)) == DeliveryUnknown
               <==> s.client.waiting[k] in s.frames;
      }
    }
  }

  // ---- Steps that only let waiters go ----

  /** `n` differs from `s` at most by waiters that left, by the connection and by answers. */
  ghost predicate Shrinks(s: System, n: System) {
    && n.drafts == s.drafts && n.lock == s.lock && n.frames == s.frames && n.waiters == s.waiters && n.sent == s.sent
    && n.client.written == s.client.written && n.client.epoch >= s.client.epoch
    && (forall k :: k in n.client.waiting ==> k in s.client.waiting && n.client.waiting[k] == s.client.waiting[k])
    && (forall r :: Gone(s.client, r) ==> Gone(n.client, r))
    && s.jobs <= n.jobs && (forall j :: j in n.jobs && j !in s.jobs ==> !j.lost)
  }

  lemma {:induction false} ShrinkKeeps(s: System, n: System)
    requires Shrinks(s, n) && Labels(s) && Drafts(s)
    ensures Labels(n) && Drafts(n) && (Exact(s) ==> Exact(n)) && (LostExact(s) ==> LostExact(n))
  {
  }

  predicate IsPlain(a: Step) {
    a.DoBeginConnect? || a.DoDialFailed? || a.DoInstall? || a.DoFinishInitialize? || a.DoRemove? || a.DoRespond? || a.DoClose?
  }

  lemma {:induction false} PlainShrinks(s: System, a: Step)
    requires Enabled(s, a) && IsPlain(a) && Connecting(s)
    ensures Shrinks(s, Do(s, a))
  {
  }

  // ---- Registering, writing, tearing down, sending ----

  lemma {:induction false} RegisterKeepsFiled(s: System, k: Key, r: Ref)
    requires Filed(s)
    ensures Labels(Registering(s, k, r)) && Drafts(Registering(s, k, r))
  {
    assert s.waiters !in s.drafts;
    assert forall l :: l in s.client.waiting ==> s.client.waiting[l] != s.waiters;
    assert forall j :: j in s.jobs ==> j.waiter != s.waiters;
  }

  lemma {:induction false} RegisterKeepsExact(s: System, k: Key, r: Ref)
    requires Drafts(s) && Exact(s)
    ensures Exact(Registering(s, k, r))
  {
    assert s.waiters !in s.client.written && s.waiters !in s.frames;
  }

  lemma {:induction false} RegisterKeepsLost(s: System, k: Key, r: Ref)
    requires LostExact(s)
    ensures LostExact(Registering(s, k, r))
  {
    var n := Registering(s, k, r);
    assert n.jobs == s.jobs && n.sent == s.sent && n.frames == s.frames && n.client.written == s.client.written;
  }

  lemma {:induction false} StartKeeps(s: System, a: Step)
    requires Filed(s) && Enabled(s, a) && (a.DoStartRequest? || a.DoStartOther?)
    ensures var n := Do(s, a);
            Labels(n) && Drafts(n) && (Exact(s) ==> Exact(n)) && (LostExact(s) ==> LostExact(n))
  {
  }

  lemma {:induction false} SendKeeps(s: System, j: Job)
    requires Filed(s) && Enabled(s, DoSend(j))
    ensures var n := Do(s, DoSend(j));
            Labels(n) && Drafts(n) && (Exact(s) ==> Exact(n)) && (LostExact(s) ==> LostExact(n))
  {
  }

  lemma {:induction false} TeardownKeeps(s: System, r: Ref)
    requires Filed(s)
    ensures Drafts(Teardown(s, r)) && Labels(Teardown(s, r).(lock := Free))
    ensures Exact(s) ==> Exact(Teardown(s, r))
    ensures Exact(s) && LostExact(s) ==> LostExact(Teardown(s, r))
  {
    TeardownIsExact(s, r);
  }

  lemma {:induction false} MarkedWaits(c: Client<nat>, id: Id, w: nat)
    requires w in Marked(c, id)
    ensures exists k :: k in c.waiting && c.waiting[k] == w
  {
    var k := if w in At(c, Key(Call, id)) then Key(Call, id) else Key(Discovery, id);
    assert k in c.waiting && c.waiting[k] == w;
  }

  lemma {:induction false} WrittenKeeps(s: System)
    requires Filed(s) && s.lock.Writing?
    ensures var n := DoneWriting(s, true); Labels(n) && Drafts(n) && (LostExact(s) ==> LostExact(n))
  {
    forall w | w in Marked(s.client, s.lock.frame.id)
      ensures w < s.waiters && forall j :: j in s.jobs ==> j.waiter != w
    {
      MarkedWaits(s.client, s.lock.frame.id, w);
    }
  }

  /** Forgetting the lock, or letting time pass. */
  lemma {:induction false} TimeKeeps(s: System, n: System)
    requires n == s.(lock := n.lock, clock := n.clock) && (n.lock == s.lock || n.lock == Free)
    ensures Drafts(s) ==> Drafts(n)
    ensures Labels(s) ==> Labels(n)
    ensures Exact(s) ==> Exact(n)
    ensures LostExact(s) ==> LostExact(n)
  {
  }

  lemma {:induction false} FinishKeeps(s: System, ok: bool)
    requires Filed(s) && s.lock.Writing?
    ensures var n := Do(s, DoFinishWrite(ok));
            && Labels(n) && Drafts(n) && (Exact(s) && LostExact(s) ==> LostExact(n))
            && (Exact(s) ==> (Exact(n) <==> !Misdirects(s, DoFinishWrite(ok))))
  {
    var m, n := DoneWriting(s, ok), Do(s, DoFinishWrite(ok));
    if ok {
      WrittenKeeps(s);
      if Exact(s) {
        MarkIsExactExactly(s);
      }
      assert Exact(n) <==> Exact(m);
    } else {
      TeardownKeeps(s, s.lock.ref);
      TimeKeeps(Teardown(s, s.lock.ref), m);
    }
    TimeKeeps(m, n);
  }

  /** What a step does to the files: they stay in order; the marks stay exact unless the step misdirects; and
      while they are, lost waiters are told the truth. */
  lemma {:induction false} StepKeepsFiled(s: System, a: Step)
    requires Filed(s) && Connecting(s) && Enabled(s, a)
    ensures Filed(Do(s, a))
    ensures Exact(s) && LostExact(s) ==> LostExact(Do(s, a))
    ensures Exact(s) ==> (Exact(Do(s, a)) <==> !Misdirects(s, a))
  {
    StepKeepsToldOnce(s, a);
    match a
    case DoFinishWrite(ok) => FinishKeeps(s, ok);
    case DoTeardown(r) => TeardownKeeps(s, r); TimeKeeps(Teardown(s, r), Do(s, a));
    case DoRegister(k, r) =>
      RegisterKeepsFiled(s, k, r);
      if Exact(s) {
        RegisterKeepsExact(s, k, r);
      }
      if LostExact(s) {
        RegisterKeepsLost(s, k, r);
      }
      TimeKeeps(Registering(s, k, r), Do(s, a));
    case DoSend(j) => SendKeeps(s, j);
    case DoStartRequest(_) => StartKeeps(s, a);
    case DoStartOther(_, _) => StartKeeps(s, a);
    case _ => PlainShrinks(s, a); ShrinkKeeps(s, Do(s, a));
  }

  lemma {:induction false} LinkKeepsFiled(states: seq<System>, steps: seq<Step>, n: nat)
    requires Run(states, steps) && n < |steps| && Filed(states[n])
    ensures Filed(states[n + 1])
    ensures Exact(states[n]) && LostExact(states[n]) ==> LostExact(states[n + 1])
    ensures Exact(states[n]) ==> (Exact(states[n + 1]) <==> !Misdirects(states[n], steps[n]))
  {
    RunTellsOnce(states, steps, n);
    assert Link(states, steps, n);
    StepKeepsFiled(states[n], steps[n]);
  }

  lemma {:induction false} NewIsFiled()
    ensures Filed(NewSystem()) && Exact(NewSystem()) && LostExact(NewSystem()) && Distinct(NewSystem())
  {
  }

  lemma {:induction false} RunIsFiled(states: seq<System>, steps: seq<Step>, n: nat)
    requires Run(states, steps) && n <= |steps|
    ensures Filed(states[n])
  {
    if n == 0 {
      NewIsFiled();
    } else {
      RunIsFiled(states, steps, n - 1);
      LinkKeepsFiled(states, steps, n - 1);
    }
  }

  lemma {:induction false} StaysExact(states: seq<System>, steps: seq<Step>, n: nat)
    requires Run(states, steps) && n <= |steps|
    requires forall k :: 0 <= k < n ==> !Misdirects(states[k], steps[k])
    ensures Exact(states[n]) && LostExact(states[n])
  {
    if n == 0 {
      NewIsFiled();
    } else {
      StaysExact(states, steps, n - 1);
      RunIsFiled(states, steps, n - 1);
      LinkKeepsFiled(states, steps, n - 1);
    }
  }

  /** Main theorem, second part: over every run the marks say exactly which frames were fully written if and
      only if no frame is finished under the id of another waiter whose own frame is still to be written; and
      then every waiter told of a lost connection is told that delivery is unknown exactly when its frame was
      fully written. */
  lemma {:induction false} RunIsExactExactly(states: seq<System>, steps: seq<Step>)
    requires Run(states, steps)
    ensures (forall n :: 0 <= n <= |steps| ==> Exact(states[n])) <==>
              forall n :: 0 <= n < |steps| ==> !Misdirects(states[n], steps[n])
    ensures (forall n :: 0 <= n < |steps| ==> !Misdirects(states[n], steps[n])) ==>
              forall n :: 0 <= n <= |steps| ==> LostExact(states[n])
  {
    if forall n :: 0 <= n <= |steps| ==> Exact(states[n]) {
      forall n | 0 <= n < |steps| ensures !Misdirects(states[n], steps[n]) {
        RunIsFiled(states, steps, n);
        LinkKeepsFiled(states, steps, n);
        assert Exact(states[n + 1]);
      }
    }
    if forall n :: 0 <= n < |steps| ==> !Misdirects(states[n], steps[n]) {
      forall n | 0 <= n <= |steps| ensures Exact(states[n]) && LostExact(states[n]) {
        StaysExact(states, steps, n);
      }
    }
  }

  /** In terms of what waiters are told: over a run every teardown would tell the truth at every moment under the
      same condition. */
  lemma {:induction false} RunTellsTruthExactly(states: seq<System>, steps: seq<Step>)
    requires Run(states, steps)
    ensures (forall n :: 0 <= n <= |steps| ==> TellsTruth(states[n])) <==>
              forall n :: 0 <= n < |steps| ==> !Misdirects(states[n], steps[n])
  {
    forall n | 0 <= n <= |steps| ensures Exact(states[n]) <==> TellsTruth(states[n]) {
      RunTellsOnce(states, steps, n);
      ExactTellsTruth(states[n]);
    }
    RunIsExactExactly(states, steps);
  }

  // ---- Ids of their own ----

  /** An identifier that no waiter, no unwritten request and no frame being written uses. */
  ghost predicate Unused(s: System, id: Id) {
    && (forall k :: k in s.client.waiting ==> k.id != id)
    && (forall w :: w in s.drafts ==> s.drafts[w].id != id)
    && (s.lock.Writing? ==> s.lock.frame.id != id)
  }

  /** A request takes an unused id, and no other frame is written under the id of a waiter. */
  ghost predicate OwnIds(s: System, a: Step) {
    match a
    case DoRegister(k, _) => Unused(s, k.id)
    case DoStartOther(_, id) => forall k :: k in s.client.waiting ==> k.id != id
    case _ => true
  }

  /** Whoever waits under the id of a request or of a frame being written is its own waiter. */
  ghost predicate Distinct(s: System) {
    && (forall w, v :: w in s.drafts && v in s.drafts && s.drafts[w].id == s.drafts[v].id ==> w == v)
    && (forall w, k :: w in s.drafts && k in s.client.waiting && k.id == s.drafts[w].id ==> s.client.waiting[k] == w)
    && (s.lock.Writing? ==> forall k :: k in s.client.waiting && k.id == s.lock.frame.id ==>
          s.lock.frame.Own? && s.client.waiting[k] == s.lock.frame.waiter)
  }

  lemma {:induction false} RegisterKeepsDistinct(s: System, k: Key, r: Ref)
    requires Distinct(s) && Filed(s) && Unused(s, k.id)
    ensures Distinct(Registering(s, k, r))
  {
    assert s.waiters !in s.drafts;
  }

  lemma {:induction false} StepKeepsDistinct(s: System, a: Step)
    requires Distinct(s) && Filed(s) && Connecting(s) && Enabled(s, a) && OwnIds(s, a)
    ensures Distinct(Do(s, a)) && !Misdirects(s, a)
  {
    if a.DoRegister? {
      RegisterKeepsDistinct(s, a.key, a.ref);
    } else if IsPlain(a) {
      PlainShrinks(s, a);
    } else if a.DoFinishWrite? {
      FinishIsDirect(s, a.ok);
    }
  }

  lemma {:induction false} FinishIsDirect(s: System, ok: bool)
    requires Distinct(s) && s.lock.Writing?
    ensures Distinct(Do(s, DoFinishWrite(ok))) && !Misdirects(s, DoFinishWrite(ok))
  {
    forall w | w in Marked(s.client, s.lock.frame.id) ensures !Strays(s, w) {
      var id := s.lock.frame.id;
      var k := if w in At(s.client, Key(Call, id)) then Key(Call, id) else Key(Discovery, id);
      assert k in s.client.waiting && s.client.waiting[k] == w;
    }
  }

  lemma {:induction false} LinkKeepsDistinct(states: seq<System>, steps: seq<Step>, n: nat)
    requires Run(states, steps) && n < |steps| && Distinct(states[n]) && OwnIds(states[n], steps[n])
    ensures Distinct(states[n + 1]) && !Misdirects(states[n], steps[n])
  {
    RunIsFiled(states, steps, n);
    RunTellsOnce(states, steps, n);
    assert Link(states, steps, n);
    StepKeepsDistinct(states[n], steps[n]);
  }

  lemma {:induction false} StaysDistinct(states: seq<System>, steps: seq<Step>, n: nat)
    requires Run(states, steps) && n <= |steps|
    requires forall k :: 0 <= k < n ==> OwnIds(states[k], steps[k])
    ensures Distinct(states[n])
  {
    if n == 0 {
      NewIsFiled();
    } else {
      StaysDistinct(states, steps, n - 1);
      LinkKeepsDistinct(states, steps, n - 1);
    }
  }

  /** In particular it is enough that requests take ids of their own. */
  lemma {:induction false} OwnIdsAreExact(states: seq<System>, steps: seq<Step>)
    requires Run(states, steps) && forall k :: 0 <= k < |steps| ==> OwnIds(states[k], steps[k])
    ensures forall n :: 0 <= n <= |steps| ==> Exact(states[n]) && LostExact(states[n])
  {
    forall n | 0 <= n < |steps| ensures !Misdirects(states[n], steps[n]) {
      StaysDistinct(states, steps, n);
      LinkKeepsDistinct(states, steps, n);
    }
    RunIsExactExactly(states, steps);
  }

  // ---- An instance ----

  function Last(states: seq<System>): System
    requires states != []
  {
    states[|states| - 1]
  }

  lemma {:induction false} Extend(states: seq<System>, steps: seq<Step>, a: Step) returns (more: seq<System>, all: seq<Step>)
    requires Run(states, steps) && Enabled(Last(states), a)
    ensures Run(more, all) && Last(more) == Do(Last(states), a)
  {
    more, all := states + [Do(Last(states), a)], steps + [a];
    forall n | 0 <= n < |all| ensures Link(more, all, n) {
      if n < |steps| {
        assert Link(states, steps, n);
        assert more[n] == states[n] && all[n] == steps[n] && more[n + 1] == states[n + 1];
      }
    }
  }

  /** A connected client with one request under `id` that has not been written. */
  function WaitingSystem(id: Id): System {
    System(Client(Some(0), 1, true, false, false, map[Key(Call, id) := 0], {}), Free, false,
           map[0 := Draft(Ref(0, 1, true), id)], 1, 1, 4, {}, map[], {})
  }

  lemma {:induction false} WaitingIsReachable(id: Id) returns (states: seq<System>, steps: seq<Step>)
    ensures Run(states, steps) && Last(states) == WaitingSystem(id)
  {
    var r := Ref(0, 1, true);
    states, steps := [NewSystem()], [];
    states, steps := Extend(states, steps, DoBeginConnect);
    states, steps := Extend(states, steps, DoInstall);
    states, steps := Extend(states, steps, DoFinishInitialize(r));
    states, steps := Extend(states, steps, DoRegister(Key(Call, id), r));
  }

  /** A waiter was told that delivery is unknown, and its frame was not written. */
  predicate Misinformed(s: System, j: Job) {
    j in s.sent && s.sent[j] == DeliveryUnknown && j.waiter !in s.frames
  }

  /** Without ids of their own, for any id: a reply to a peer that uses the id of a waiting request marks the
      request as written, and the end of the connection tells its waiter that delivery is unknown although its
      frame was never written. */
  lemma {:induction false} ForeignIdMarks(id: Id)
    returns (states: seq<System>, steps: seq<Step>, j: Job)
    ensures Run(states, steps) && Misinformed(Last(states), j)
  {
    var r, k := Ref(0, 1, true), Key(Call, id);
    j := Job(6, k, 0, true);
    states, steps := WaitingIsReachable(id);
    states, steps := Extend(states, steps, DoStartOther(r, id));
    states, steps := Extend(states, steps, DoFinishWrite(true));
    var s := Last(states);
    assert s.client.waiting == map[k := 0] && 0 in s.client.written && 0 !in s.frames && s.clock == 6;
    states, steps := Extend(states, steps, DoTeardown(r));
    assert j in Last(states).jobs && 0 in Last(states).client.written;
    states, steps := Extend(states, steps, DoSend(j));
  }
}
