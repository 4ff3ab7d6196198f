/** The Desktop client as an object: its critical sections, and the sends that follow them, on waiters with
    a one-slot result channel. */
module ClientObject {
  import opened Json
  import opened DesktopClient

  /** A caller waiting for one result; `slot` is the channel's buffer. */
  class Waiter {
    var slot: Option<Outcome>
    var written: bool

    constructor ()
      ensures slot == None && !written
    {
      slot, written := None, false;
    }

    /** A send on the one-slot channel; it would block on a full slot. */
    method Send(outcome: Outcome)
      requires slot.None?
      modifies this`slot
      ensures slot == Some(outcome)
    {
      slot := Some(outcome);
    }
  }

  function LostOutcome(written: bool): Outcome {
    if written then DeliveryUnknown else NotDelivered
  }

  /** Waiters of different places are different objects, and nobody has sent to them. */
  ghost predicate Untold(waiting: map<Key, Waiter>)
    reads waiting.Values
  {
    && (forall k :: k in waiting ==> waiting[k].slot == None)
    && (forall k, l :: k in waiting && l in waiting && waiting[k] == waiting[l] ==> k == l)
  }

  /** Completes every detached waiter, in any order: as delivery-unknown exactly those marked written. */
  method FailPending(detached: map<Key, Waiter>)
    requires Untold(detached)
    modifies detached.Values
    ensures forall k :: k in detached ==>
              && detached[k].written == old(detached[k].written)
              && detached[k].slot == Some(if detached[k].written then DeliveryUnknown else NotDelivered)
  {
    var rest := detached.Keys;
    while rest != {}
      invariant rest <= detached.Keys
      invariant forall k :: k in detached ==> detached[k].written == old(detached[k].written)
      invariant forall k :: k in rest ==> detached[k].slot == None
      invariant forall k :: k in detached && k !in rest ==> detached[k].slot == Some(LostOutcome(detached[k].written))
      decreases |rest|
    {
      var k :| k in rest;
      rest := rest - {k};
      detached[k].Send(LostOutcome(detached[k].written));
    }
  }

  class Session {
    var conn: Option<nat>
    var epoch: nat
    var identified: bool
    var connecting: bool
    var closed: bool
    var waiting: map<Key, Waiter>
    ghost var known: set<Waiter>

    ghost predicate Valid()
      reads this, known, waiting.Values
    {
      waiting.Values <= known && Untold(waiting)
    }

    ghost function Value(): (c: Client<Waiter>)
      reads this, known
    {
      Client(conn, epoch, identified, connecting, closed, waiting, set w | w in known && w.written)
    }

    predicate IsCurrent(r: Ref)
      reads this
      ensures IsCurrent(r) <==> SameConnection(Value(), r)
    {
      conn == Some(r.conn) && epoch == r.epoch
    }

    predicate CanWrite(r: Ref)
      reads this
      ensures CanWrite(r) <==> Matches(Value(), r)
    {
      if closed || conn.None? || conn != Some(r.conn) || epoch != r.epoch then false
      else if r.connecting then connecting || identified
      else !connecting && identified
    }

    constructor ()
      ensures Valid() && Value() == Client(None, 0, false, false, false, map[], {})
    {
      conn, epoch, identified, connecting, closed, waiting, known := None, 0, false, false, false, map[], {};
    }

    method BeginConnect() returns (ok: bool)
      requires Valid()
      modifies this
      ensures Valid() && known == old(known)
      ensures ok <==> DesktopClient.BeginConnect(old(Value())).Some?
      ensures Value() == if ok then DesktopClient.BeginConnect(old(Value())).value else old(Value())
    {
      if closed || (!connecting && conn.Some? && identified) || connecting {
        return false;
      }
      connecting := true;
      ok := true;
    }

    method Install(dialed: nat) returns (r: Option<Ref>)
      requires Valid()
      modifies this
      ensures Valid() && known == old(known)
      ensures Value() == DesktopClient.Install(old(Value()), dialed).0 && r == DesktopClient.Install(old(Value()), dialed).1
    {
      if closed {
        connecting := false;
        return None;
      }
      epoch, conn, identified := epoch + 1, Some(dialed), false;
      r := Some(Ref(dialed, epoch, true));
    }

    method FinishInitialize(r: Ref) returns (ok: bool)
      requires Valid()
      modifies this
      ensures Valid() && known == old(known)
      ensures ok <==> DesktopClient.FinishInitialize(old(Value()), r).Some?
      ensures Value() == if ok then DesktopClient.FinishInitialize(old(Value()), r).value else old(Value())
    {
      if !IsCurrent(r) {
        return false;
      }
      identified, connecting := true, false;
      ok := true;
    }

    /** Registers a new waiter before its request is written. */
    method Register(k: Key, r: Ref) returns (ok: bool, w: Waiter)
      requires Valid()
      modifies this
      ensures Valid() && fresh(w) && w.slot == None && !w.written && known == old(known) + {w}
      ensures ok <==> DesktopClient.Register(old(Value()), k, w, r).Some?
      ensures Value() == if ok then DesktopClient.Register(old(Value()), k, w, r).value else old(Value())
    {
      w := new Waiter();
      known := known + {w};
      ok := CanWrite(r) && k !in waiting;
      if ok {
        waiting := waiting[k := w];
      }
    }

    method Remove(k: Key, w: Waiter)
      requires Valid()
      modifies this
      ensures Valid() && known == old(known) && Value() == DesktopClient.Remove(old(Value()), k, w)
    {
      if k in waiting && waiting[k] == w {
        waiting := waiting - {k};
      }
    }

    method MarkOne(k: Key)
      requires Valid()
      modifies waiting.Values
      ensures Valid() && Value() == old(Value()).(written := old(Value()).written + At(old(Value()), k))
    {
      if k in waiting {
        waiting[k].written := true;
      }
    }

    method MarkWritten(id: Id)
      requires Valid()
      modifies waiting.Values
      ensures Valid() && Value() == DesktopClient.MarkWritten(old(Value()), id)
    {
      MarkOne(Key(Call, id));
      MarkOne(Key(Discovery, id));
    }

    /** A response wakes the one waiter of its id; the slot is free. */
    method Respond(k: Key)
      requires Valid()
      modifies this, waiting.Values
      ensures Valid() && known == old(known)
      ensures Value() == DesktopClient.Respond(old(Value()), k).0
      ensures k in old(waiting) ==> old(waiting)[k].slot == Some(Answered)
      ensures forall l :: l in waiting ==> waiting[l].slot == None
    {
      if k in waiting {
        var w := waiting[k];
        waiting := waiting - {k};
        w.Send(Answered);
      }
    }

    /** Takes down one connection and completes its waiters; a stale snapshot changes nothing. */
    method Teardown(r: Ref)
      requires Valid()
      modifies this, waiting.Values
      ensures Valid() && known == old(known)
      ensures Value() == DesktopClient.Disconnect(old(Value()), r).0
      ensures old(IsCurrent(r)) ==>
                forall k :: k in old(waiting) ==>
                  old(waiting)[k].slot == Some(if old(waiting[k].written) then DeliveryUnknown else NotDelivered)
      ensures !old(IsCurrent(r)) ==> forall k :: k in old(waiting) ==> old(waiting)[k].slot == None
    {
      if !IsCurrent(r) {
        return;
      }
      var detached := waiting;
      conn, identified, connecting, waiting := None, false, false, map[];
      FailPending(detached);
    }
  }
}
