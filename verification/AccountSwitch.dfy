/** Switching the account of the shared Host while it is online: a transaction over the auth file, the
    Host process and the account index, with a journal and a rollback, behind the exclusive gate
    (agent/codex_account.go).  Every foreign step may fail; a step that fails leaves what it touched in
    an arbitrary state. */
module AccountSwitch {
  import opened Json
  import opened Gate
  import opened AppServerGate

  datatype Account = Account(email: string)

  datatype Host = Stopped | Up(account: Account)

  datatype Journal = NoRecord | Unchanged | Switching | Success | RolledBack | RollbackFailed

  /** The account index: the active profile and the last switch record. */
  datatype Index = Index(active: Option<Account>, journal: Journal)

  /** A start that finds this record must fail closed. */
  predicate Unsafe(j: Journal) {
    j.Switching? || j.RollbackFailed?
  }

  /** What a crash would leave behind: the auth file, the Host and the index on disk; `touched` once the
      Host has been asked to stop. */
  datatype Disk = Disk(auth: Account, host: Host, stored: Index, touched: bool)

  /** The outcome of every foreign step of one switch, and the state a failed step leaves. */
  datatype Schedule = Schedule(
    preflight: bool, found: bool, saveProfile: bool, identityBefore: bool, quotaBefore: bool, lifecycleLock: bool,
    flushUnchanged: bool, flushSwitching: bool,
    stop: bool, hostAfterStop: Host,
    write: bool, authAfterWrite: Account,
    start: bool, hostAfterStart: Host,
    verify: bool, quota: bool, identity: bool, setActive: bool, flushSuccess: bool,
    back: RollbackSchedule, finalFlush: bool,
    gateFailure: Option<string>)

  datatype RollbackSchedule = RollbackSchedule(
    usage: bool, active: bool,
    started: bool, stop: bool, hostAfterStop: Host,
    write: bool, authAfterWrite: Account,
    start: bool, hostAfterStart: Host,
    verify: bool, quota: bool, identity: bool, flushDone: bool, flushFailed: bool)

  /** Auth file, Host and active profile all belong to one account. */
  predicate AllAre(d: Disk, account: Account, active: Option<Account>) {
    d.auth == account && d.host == Up(account) && d.stored.active == active
  }

  /** Either nothing has been switched or everything has. */
  predicate Whole(d: Disk, before: Account, active: Option<Account>, target: Account) {
    AllAre(d, before, active) || AllAre(d, target, Some(target))
  }

  /** What may be seen on disk at any moment of a switch from `before` to `target`: a journal that does
      not force a failed start belongs to a whole state; and once the Host has been touched the journal
      is unsafe until a verified success or a complete rollback has been recorded. */
  predicate Recoverable(d: Disk, before: Account, active: Option<Account>, target: Account) {
    && (!Unsafe(d.stored.journal) ==> Whole(d, before, active, target))
    && (d.touched ==>
          || Unsafe(d.stored.journal)
          || (d.stored.journal.Success? && AllAre(d, target, Some(target)))
          || (d.stored.journal.RolledBack? && AllAre(d, before, active)))
  }

  /** The gate that the next start begins with: a record of an unfinished switch fails it. */
  function GateAtStart(stored: Index): (g: GateState) {
    if Unsafe(stored.journal) then Fail(NewGate(), "unsafe switch record") else NewGate()
  }

  /** No run of the gate that a start on this disk begins with admits a turn, unless the disk holds one whole
      account. */
  ghost predicate RestartsSafely(d: Disk, before: Account, active: Option<Account>, target: Account) {
    forall states: seq<System>, steps: seq<Step>, n: nat ::
      Run(states, steps) && states[0] == System(GateAtStart(d.stored), map[], map[]) && n < |steps| && steps[n].Acquire?
      ==> Whole(d, before, active, target)
  }

  /** A start on a record of an unfinished switch admits nothing, whatever happens, forced operations
      included. */
  lemma {:induction false} RecoverableRestartsSafely(d: Disk, before: Account, active: Option<Account>, target: Account)
    requires Recoverable(d, before, active, target)
    ensures RestartsSafely(d, before, active, target)
  {
    forall states: seq<System>, steps: seq<Step>, n: nat |
      Run(states, steps) && states[0] == System(GateAtStart(d.stored), map[], map[]) && n < |steps| && steps[n].Acquire?
      ensures Whole(d, before, active, target)
    {
      if Unsafe(d.stored.journal) {
        FailureIsSticky(states, steps, n);
      }
    }
  }

  /** The run admits a turn. */
  ghost predicate Opens(s: System, states: seq<System>, steps: seq<Step>) {
    Run(states, steps) && states[0] == s && exists n :: 0 <= n < |steps| && steps[n].Acquire?
  }

  /** A start admits no turn, whatever happens, exactly if it finds the record of a switch that was interrupted or
      could not be undone. */
  lemma {:induction false} RecordDecidesStart(stored: Index)
    ensures stored.journal in {Switching, RollbackFailed} <==>
              forall states: seq<System>, steps: seq<Step> :: !Opens(System(GateAtStart(stored), map[], map[]), states, steps)
  {
    var s := System(GateAtStart(stored), map[], map[]);
    if stored.journal in {Switching, RollbackFailed} {
      forall states: seq<System>, steps: seq<Step> ensures !Opens(s, states, steps) {
        if Opens(s, states, steps) {
          var n :| 0 <= n < |steps| && steps[n].Acquire?;
          FailureIsSticky(states, steps, n);
        }
      }
    } else {
      var states, steps := [s, Do(s, Acquire(0))], [Acquire(0)];
      assert steps[0].Acquire?;
      assert Opens(s, states, steps);
    }
  }

  // ---- Which schedules come to what ----

  /** The switch gets as far as stopping the Host. */
  predicate Touches(auth: Account, host: Host, active: Option<Account>, target: Account, s: Schedule) {
    && s.preflight && host == Up(auth) && s.found
    && (active.Some? ==> active == Some(auth) && s.saveProfile)
    && active != Some(target) && s.lifecycleLock && s.flushSwitching
  }

  predicate SwitchWorks(target: Account, s: Schedule) {
    && s.stop && s.write && s.start && s.verify && s.hostAfterStart == Up(target)
    && s.quota && s.identity && s.setActive && s.flushSuccess
  }

  predicate RestoreWorks(before: Account, b: RollbackSchedule) {
    && (b.started ==> b.stop) && b.write && b.start && b.verify && b.hostAfterStart == Up(before)
    && b.quota && b.identity
  }

  predicate RollbackWorks(before: Account, b: RollbackSchedule) {
    b.usage && b.active && RestoreWorks(before, b) && b.flushDone
  }

  /** Every step of a switch counts, the account that the Host is verified with included. */
  lemma {:induction false} EveryStepCounts(target: Account, s: Schedule, other: Host)
    requires s.stop && s.write && s.start && s.verify && s.hostAfterStart == Up(target)
    requires s.quota && s.identity && s.setActive && s.flushSuccess && other != Up(target)
    ensures SwitchWorks(target, s)
    ensures !SwitchWorks(target, s.(stop := false)) && !SwitchWorks(target, s.(write := false))
    ensures !SwitchWorks(target, s.(start := false)) && !SwitchWorks(target, s.(verify := false))
    ensures !SwitchWorks(target, s.(hostAfterStart := other)) && !SwitchWorks(target, s.(quota := false))
    ensures !SwitchWorks(target, s.(identity := false)) && !SwitchWorks(target, s.(setActive := false))
    ensures !SwitchWorks(target, s.(flushSuccess := false))
  {
  }

  /** And so does every step of a rollback; a Host that was never started again need not be stopped. */
  lemma {:induction false} EveryStepBackCounts(before: Account, b: RollbackSchedule, other: Host)
    requires b.usage && b.active && b.stop && b.write && b.start && b.verify && b.hostAfterStart == Up(before)
    requires b.quota && b.identity && b.flushDone && other != Up(before)
    ensures RollbackWorks(before, b) && RollbackWorks(before, b.(started := false, stop := false))
    ensures !RollbackWorks(before, b.(usage := false)) && !RollbackWorks(before, b.(active := false))
    ensures !RollbackWorks(before, b.(started := true, stop := false)) && !RollbackWorks(before, b.(write := false))
    ensures !RollbackWorks(before, b.(start := false)) && !RollbackWorks(before, b.(verify := false))
    ensures !RollbackWorks(before, b.(hostAfterStart := other)) && !RollbackWorks(before, b.(quota := false))
    ensures !RollbackWorks(before, b.(identity := false)) && !RollbackWorks(before, b.(flushDone := false))
  {
  }

  /** A switch gets to the Host unless a check before it fails, the target is in use already, or the account in use
      is not the one on record or cannot be saved. */
  lemma {:induction false} StopsShortExactly(auth: Account, host: Host, active: Option<Account>, target: Account, s: Schedule)
    ensures !Touches(auth, host, active, target, s) <==>
              || !s.preflight || !s.found || !s.lifecycleLock || !s.flushSwitching
              || host == Stopped || host.account != auth
              || (active.Some? && (active.value == target || active.value != auth || !s.saveProfile))
  {
  }

  /** The runtime can be used afterwards. */
  predicate Survives(auth: Account, host: Host, active: Option<Account>, target: Account, s: Schedule) {
    Touches(auth, host, active, target, s) ==> s.stop && (SwitchWorks(target, s) || RollbackWorks(auth, s.back))
  }

  class Machine {
    var auth: Account
    var host: Host
    var stored: Index
    var tx: Index
    var touched: bool
    ghost var history: seq<Disk>

    ghost function Now(): Disk
      reads this
    {
      Disk(auth, host, stored, touched)
    }

    ghost predicate AlwaysRecoverable(before: Account, active: Option<Account>, target: Account)
      reads this
    {
      forall i :: 0 <= i < |history| ==> Recoverable(history[i], before, active, target)
    }

    constructor (auth: Account, host: Host, stored: Index)
      ensures this.auth == auth && this.host == host && this.stored == stored && tx == stored && !touched && history == []
    {
      this.auth, this.host, this.stored, tx, touched := auth, host, stored, stored, false;
      history := [];
    }

    /** Remembers what a crash at this moment would leave. */
    method Observe()
      modifies `history
      ensures history == old(history) + [Now()]
    {
      history := history + [Now()];
    }

    /** Writes the index, atomically. */
    method Flush(ok: bool)
      modifies `stored, `history
      ensures stored == (if ok then tx else old(stored))
      ensures history == old(history) + [Now()]
    {
      if ok {
        stored := tx;
      }
      Observe();
    }

    method StopHost(ok: bool, after: Host)
      modifies `host, `touched, `history
      ensures host == (if ok then Stopped else after) && touched
      ensures history == old(history) + [Now()]
    {
      host := if ok then Stopped else after;
      touched := true;
      Observe();
    }

    method WriteAuth(ok: bool, account: Account, after: Account)
      modifies `auth, `history
      ensures auth == (if ok then account else after)
      ensures history == old(history) + [Now()]
    {
      auth := if ok then account else after;
      Observe();
    }

    /** A started Host may come up with any account; only verification tells. */
    method StartHost(after: Host)
      modifies `host, `history
      ensures host == after
      ensures history == old(history) + [Now()]
    {
      host := after;
      Observe();
    }

    /** Brings the previous runtime back and proves it. */
    method RestoreRuntime(before: Account, b: RollbackSchedule) returns (ok: bool)
      requires Unsafe(stored.journal) && touched
      modifies `auth, `host, `touched, `history
      ensures ok <==> RestoreWorks(before, b)
      ensures ok ==> auth == before && host == Up(before)
      ensures touched
      ensures |history| >= |old(history)| && history[..|old(history)|] == old(history)
      ensures forall i :: |old(history)| <= i < |history| ==> history[i].stored == stored && history[i].touched
    {
      if b.started {
        StopHost(b.stop, b.hostAfterStop);
        if !b.stop {
          return false;
        }
      }
      WriteAuth(b.write, before, b.authAfterWrite);
      if !b.write {
        return false;
      }
      StartHost(b.hostAfterStart);
      return b.start && b.verify && host == Up(before) && b.quota && b.identity;
    }

    /** Undoes a switch that got as far as stopping the Host. */
    method Rollback(before: Account, active: Option<Account>, target: Account, b: RollbackSchedule) returns (available: bool)
      requires Unsafe(stored.journal) && touched && AlwaysRecoverable(before, active, target)
      modifies this
      ensures AlwaysRecoverable(before, active, target)
      ensures available <==> RollbackWorks(before, b)
      ensures available ==> AllAre(Now(), before, active) && stored.journal.RolledBack?
      ensures !available ==> stored.journal == if !(b.usage && b.active && RestoreWorks(before, b)) && b.flushFailed then RollbackFailed else old(stored.journal)
      ensures touched && |history| >= |old(history)| && history != [] && history[|history| - 1] == Now()
    {
      if b.active {
        tx := tx.(active := active);
      }
      var restored := RestoreRuntime(before, b);
      assert AlwaysRecoverable(before, active, target);
      if !b.usage || !b.active || !restored {
        tx := tx.(journal := RollbackFailed);
        Flush(b.flushFailed);
        return false;
      }
      tx := tx.(journal := RolledBack);
      Flush(b.flushDone);
      return b.flushDone;
    }

    /** The part of the transaction that touches the Host. */
    method SwitchHost(before: Account, active: Option<Account>, target: Account, s: Schedule)
      returns (available: bool, changed: bool)
      requires AllAre(Now(), before, active) && tx == stored && !touched && AlwaysRecoverable(before, active, target)
      modifies this
      ensures AlwaysRecoverable(before, active, target)
      ensures available ==> if changed then AllAre(Now(), target, Some(target)) && stored.journal.Success?
                            else AllAre(Now(), before, active) && (touched ==> stored.journal.RolledBack?)
      ensures !available ==> !changed
      ensures !available ==> stored.journal == if s.stop && !(s.back.usage && s.back.active && RestoreWorks(before, s.back)) && s.back.flushFailed
                                               then RollbackFailed else Switching
      ensures !s.flushSwitching ==> stored == old(stored)
      ensures history != [] && history[|history| - 1] == Now() && (touched <==> s.flushSwitching)
      ensures changed <==> s.flushSwitching && SwitchWorks(target, s)
      ensures available <==> (s.flushSwitching ==> s.stop && (SwitchWorks(target, s) || RollbackWorks(before, s.back)))
      ensures s.flushSwitching && !s.stop ==> auth == old(auth) && host == s.hostAfterStop
    {
      tx := tx.(journal := Switching);
      Flush(s.flushSwitching);
      if !s.flushSwitching {
        return true, false;
      }
      StopHost(s.stop, s.hostAfterStop);
      if !s.stop {
        return false, false;
      }
      WriteAuth(s.write, target, s.authAfterWrite);
      if !s.write {
        available := Rollback(before, active, target, s.back);
        return available, false;
      }
      StartHost(s.hostAfterStart);
      if !s.start || !s.verify || host != Up(target) || !s.quota || !s.identity || !s.setActive {
        available := Rollback(before, active, target, s.back);
        return available, false;
      }
      tx := tx.(active := Some(target), journal := Success);
      Flush(s.flushSuccess);
      if !s.flushSuccess {
        available := Rollback(before, active, target, s.back);
        return available, false;
      }
      return true, true;
    }

    /** The whole switch, for every schedule of step outcomes.  The gate admits turns afterwards exactly if the
        runtime can be used and nobody reported a failure; then auth file, Host and active profile are all the
        target's, if every step worked, or all as before; a new generation begins exactly if in the first case
        the closing flush of the transaction works as well.  Otherwise it has failed, and it can
        be reopened exactly if no failure was reported.  And from every moment in between a start either finds
        one whole account or never admits a turn. */
    method UseAccount(gate: ServerGate, target: Account, s: Schedule)
      requires tx == stored && !touched && history == []
      modifies this, gate
      ensures BeginExclusive(old(gate.Model())).None? ==> Now() == old(Now()) && gate.Model() == old(gate.Model())
      ensures BeginExclusive(old(gate.Model())).Some? && old(gate.failure).None? ==>
                var before, active := old(auth), old(stored.active);
                && gate.activeTurns == 0 && gate.failure == s.gateFailure
                && gate.phase == (if Survives(before, old(host), active, target, s) && s.gateFailure.None? then Running else Failed)
                && (gate.phase.Running? ==>
                      if Touches(before, old(host), active, target, s) && SwitchWorks(target, s) then AllAre(Now(), target, Some(target))
                      else Now().(stored := Now().stored.(journal := old(stored.journal)))
                           == old(Now()).(touched := touched))
                && (gate.generation > old(gate.generation) <==>
                      gate.phase.Running? && Touches(before, old(host), active, target, s) && SwitchWorks(target, s) && s.finalFlush)
                && (gate.phase.Failed? ==>
                      && (s.gateFailure.None? ==> Unsafe(stored.journal))
                      && (MayReopen(System(gate.Model(), map[], map[])) <==> s.gateFailure.None?))
                && (Touches(before, old(host), active, target, s) && !s.stop ==>
                      auth == before && host == s.hostAfterStop && stored.journal.Switching?)
                && (touched <==> Touches(before, old(host), active, target, s))
                && (touched && gate.phase.Running? ==> stored.journal == if SwitchWorks(target, s) then Success else RolledBack)
                && (touched && gate.phase.Failed? && s.gateFailure.None? ==> stored.journal in {Switching, RollbackFailed})
                && (touched ==> history != [] && history[|history| - 1] == Now())
                && (old(host) == Up(before) ==>
                      && AlwaysRecoverable(before, active, target)
                      && forall i :: 0 <= i < |history| ==> RestartsSafely(history[i], before, active, target))
    {
      var ok := gate.TryBeginExclusive();
      if !ok {
        return;
      }
      var available, changed := Transaction(target, s);
      if s.gateFailure.Some? {
        gate.FailWith(s.gateFailure.value);
      }
      gate.EndExclusiveWith(changed && s.finalFlush, available);
      if gate.phase.Failed? && gate.activeTurns == 0 {
        FailedReopensExactly(System(gate.Model(), map[], map[]));
      }
      forall i | 0 <= i < |history| && Recoverable(history[i], old(auth), old(stored.active), target)
        ensures RestartsSafely(history[i], old(auth), old(stored.active), target)
      {
        RecoverableRestartsSafely(history[i], old(auth), old(stored.active), target);
      }
    }

    /** Everything between the exclusive gate's begin and end. */
    method Transaction(target: Account, s: Schedule) returns (available: bool, changed: bool)
      requires tx == stored && !touched && history == []
      modifies this
      ensures available && changed ==> AllAre(Now(), target, Some(target))
      ensures available && !changed ==>
                auth == old(auth) && host == old(host) && stored.active == old(stored.active)
      ensures !available ==> !changed
      ensures touched <==> Touches(old(auth), old(host), old(stored.active), target, s)
      ensures touched && available ==> stored.journal == if changed then Success else RolledBack
      ensures touched && !available ==>
                stored.journal == if s.stop && !(s.back.usage && s.back.active && RestoreWorks(old(auth), s.back)) && s.back.flushFailed
                                  then RollbackFailed else Switching
      ensures !touched ==>
                stored.journal == if s.preflight && old(host) == Up(old(auth)) && s.found && s.saveProfile && old(stored.active) == Some(target) == Some(old(auth))
                                     && s.identityBefore && s.quotaBefore && s.flushUnchanged then Unchanged else old(stored.journal)
      ensures touched ==> history != [] && history[|history| - 1] == Now()
      ensures changed <==> Touches(old(auth), old(host), old(stored.active), target, s) && SwitchWorks(target, s)
      ensures available <==> Survives(old(auth), old(host), old(stored.active), target, s)
      ensures Touches(old(auth), old(host), old(stored.active), target, s) && !s.stop ==> auth == old(auth) && host == s.hostAfterStop
      ensures old(host) == Up(old(auth)) ==> AlwaysRecoverable(old(auth), old(stored.active), target)
    {
      var before, active := auth, tx.active;
      if !s.preflight || host != Up(before) || !s.found {
        return true, false;
      }
      if active.Some? && active != Some(before) {
        return true, false;
      }
      if active.Some? && !s.saveProfile {
        return true, false;
      }
      if active == Some(target) {
        if s.identityBefore && s.quotaBefore {
          tx := tx.(journal := Unchanged);
          Flush(s.flushUnchanged);
        }
        return true, false;
      }
      if !s.lifecycleLock {
        return true, false;
      }
      available, changed := SwitchHost(before, active, target, s);
    }
  }

  /** An instance of the reopening: the Host stops but the stop cannot be confirmed, so the switch fails the
      gate; a forced restart that gives up before it has done anything ends as available
      (agent/codex_restart.go:114-135) and the gate admits turns with no Host running. */
  method ReopenOverStoppedHost() returns (m: Machine, gate: ServerGate)
    ensures gate.phase.Running? && m.host == Stopped && m.auth == Account("a") && Unsafe(m.stored.journal)
  {
    var a, b := Account("a"), Account("b");
    var back := RollbackSchedule(true, true, true, true, Stopped, true, a, true, Up(a), true, true, true, true, true);
    var s := Schedule(true, true, true, true, true, true, true, true, false, Stopped, true, b, true, Up(b),
                      true, true, true, true, true, back, true, None);
    m := new Machine(a, Up(a), Index(Some(a), NoRecord));
    gate := new ServerGate();
    assert "a" != "b";
    m.UseAccount(gate, b, s);
    var ok := gate.TryBeginForcedExclusive();
    gate.EndExclusiveWith(false, true);
  }
}
