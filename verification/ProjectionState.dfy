/** The projection as it is computed: loops over turns, items and maps that update one state object. */
module ProjectionState {
  import opened Json
  import opened Projection
  import opened ProjectionChains

  method ReadTurn(raw: RawTurn) returns (turn: Turn)
    ensures turn == BuildTurn(raw)
  {
    var items: map<ItemId, Item>, order: seq<ItemId> := map[], [];
    for n := 0 to |raw.items|
      invariant items == Indexed(raw.items[..n]) && order == Named(raw.items[..n])
    {
      var item := raw.items[n];
      assert raw.items[..n + 1][..n] == raw.items[..n];
      if item.id != NO_ITEM {
        items := items[item.id := item];
        order := order + [item.id];
      }
    }
    assert raw.items[..|raw.items|] == raw.items;
    turn := Turn(raw.id, raw.status, items, order, raw.errorText);
  }

  method FindFinalAnswer(turn: Turn) returns (found: bool)
    ensures found == HasFinalAnswer(turn)
  {
    for n := 0 to |turn.order|
      invariant forall i :: 0 <= i < n && turn.order[i] in turn.items ==> !IsFinalAnswer(turn.items[turn.order[i]])
    {
      if turn.order[n] in turn.items && IsFinalAnswer(turn.items[turn.order[n]]) {
        return true;
      }
    }
    return false;
  }

  method ProjectItems(t: TurnId, was: Option<Turn>, turn: Turn) returns (events: seq<Event>)
    ensures events == Diff(t, was, turn, |turn.order|)
  {
    events := [];
    for n := 0 to |turn.order|
      invariant events == Diff(t, was, turn, n)
    {
      var i := turn.order[n];
      if i in turn.items {
        events := events + ItemEvents(t, PriorItem(was, i), turn.items[i]);
      }
    }
  }

  lemma {:induction false} BuriedIs(gone: map<TurnId, Turn>, before: map<TurnId, Turn>, turns: map<TurnId, Turn>, result: map<TurnId, Turn>)
    requires forall t :: t in result <==> t in gone || Vanished(before, turns, t)
    requires forall t :: t in result ==> result[t] == if Vanished(before, turns, t) then before[t] else gone[t]
    ensures result == Buried(gone, before, turns)
  {
  }

  /** Adds the active turns that vanished, walking the map in any order. */
  method Bury(gone: map<TurnId, Turn>, before: map<TurnId, Turn>, turns: map<TurnId, Turn>) returns (result: map<TurnId, Turn>)
    ensures forall t :: t in result <==> t in gone || Vanished(before, turns, t)
    ensures forall t :: t in result ==> result[t] == if Vanished(before, turns, t) then before[t] else gone[t]
  {
    result := gone;
    var rest := before.Keys;
    while rest != {}
      invariant rest <= before.Keys
      invariant forall t :: t in result <==> t in gone || (t !in rest && Vanished(before, turns, t))
      invariant forall t :: t in result && t !in rest && Vanished(before, turns, t) ==> result[t] == before[t]
      invariant forall t :: t in result && (t in rest || !Vanished(before, turns, t)) ==> t in gone && result[t] == gone[t]
      decreases |rest|
    {
      var t :| t in rest;
      rest := rest - {t};
      if t !in turns && Active(before[t]) {
        result := result[t := before[t]];
      }
    }
  }

  method Revive(gone: map<TurnId, Turn>, turns: map<TurnId, Turn>) returns (result: map<TurnId, Turn>)
    ensures result == Revived(gone, turns)
  {
    result := gone;
    var rest := turns.Keys;
    while rest != {}
      invariant rest <= turns.Keys
      invariant forall t :: t in result <==> t in gone && (t in turns && Active(turns[t]) ==> t in rest)
      invariant forall t :: t in result ==> result[t] == gone[t]
      decreases |rest|
    {
      var t :| t in rest;
      rest := rest - {t};
      if Active(turns[t]) {
        result := result - {t};
      }
    }
  }

  method CarryTombstones(previous: Memory, turns: map<TurnId, Turn>) returns (result: map<TurnId, Turn>)
    ensures result == Carry(previous, turns)
  {
    result := Bury(previous.marks.tombstones, previous.window.turns, turns);
    BuriedIs(previous.marks.tombstones, previous.window.turns, turns, result);
    result := Revive(result, turns);
  }

  class State {
    var turns: map<TurnId, Turn>
    var order: seq<TurnId>
    var terminal: set<TurnId>
    var candidates: set<TurnId>
    var tombstones: map<TurnId, Turn>

    function Shape(): (w: Window)
      reads this
    {
      Window(turns, order)
    }

    function Notes(): (m: Marks)
      reads this
    {
      Marks(terminal, candidates, tombstones)
    }

    function Value(): (m: Memory)
      reads this
    {
      Memory(Shape(), Notes())
    }

    /** Reads the turns of a thread state and trims them. */
    constructor (raws: seq<RawTurn>)
      ensures Shape() == Shown(raws) && Notes() == Marks({}, {}, map[])
    {
      turns, order, terminal, candidates, tombstones := map[], [], {}, {}, map[];
      new;
      for n := 0 to |raws|
        invariant Shape() == Gather(raws[..n]) && Notes() == Marks({}, {}, map[])
      {
        assert raws[..n + 1][..n] == raws[..n];
        var turn := ReadTurn(raws[n]);
        if turn.id != NO_TURN {
          turns := turns[turn.id := turn];
          order := order + [turn.id];
        }
      }
      assert raws[..|raws|] == raws;
      GatherConsistent(raws);
      TrimTurns();
    }

    /** The active turns, and the newest others while there is room. */
    method ChooseTurns() returns (keep: set<TurnId>)
      ensures keep == Keep(Shape())
    {
      keep := {};
      for n := 0 to |order|
        invariant keep == ActiveIds(turns, order[..n])
      {
        assert order[..n + 1] == order[..n] + [order[n]];
        if order[n] in turns && Active(turns[order[n]]) {
          keep := keep + {order[n]};
        }
      }
      assert order[..|order|] == order;
      var index: nat := |order|;
      while index > 0 && |keep| < MAX_TURNS
        invariant index <= |order|
        invariant Fill(order, index, keep) == Keep(Shape())
      {
        index := index - 1;
        keep := keep + {order[index]};
      }
    }

    method TrimTurns()
      requires Notes() == Marks({}, {}, map[]) && Consistent(Shape())
      modifies this
      ensures Shape() == Trim(old(Shape())) && Notes() == old(Notes())
    {
      if |order| > MAX_TURNS {
        var keep := ChooseTurns();
        FilterTurns(keep);
      }
    }

    /** Drops the turns that are not to be kept, from the order and from the maps. */
    method FilterTurns(keep: set<TurnId>)
      requires Notes() == Marks({}, {}, map[]) && forall t :: t in turns ==> t in order
      modifies this
      ensures order == Filter(old(order), keep) && Notes() == old(Notes())
      ensures turns == map t | t in old(turns) && t in keep :: old(turns)[t]
    {
      var kept: seq<TurnId> := [];
      for n := 0 to |order|
        invariant order == old(order) && Notes() == old(Notes())
        invariant kept == Filter(order[..n], keep)
        invariant forall t :: t in turns <==> t in old(turns) && (t in keep || t !in order[..n])
        invariant forall t :: t in turns ==> turns[t] == old(turns)[t]
      {
        var t := order[n];
        assert order[..n + 1][..n] == order[..n];
        assert order[..n + 1] == order[..n] + [t];
        if t in keep {
          kept := kept + [t];
        } else {
          turns := turns - {t};
          terminal := terminal - {t};
          candidates := candidates - {t};
        }
      }
      assert order[..|order|] == order;
      order := kept;
    }

    /** The memory of the previous revision. */
    method Recall(previous: Option<Memory>)
      requires Notes() == Marks({}, {}, map[])
      modifies this
      ensures Notes() == Carried(previous, turns) && Shape() == old(Shape())
    {
      if previous.Some? {
        terminal := previous.value.marks.terminal;
        candidates := previous.value.marks.candidates;
        tombstones := CarryTombstones(previous.value, turns);
      }
    }

    /** Whether and how the turn has ended. */
    method Conclude(t: TurnId, turn: Turn, baseline: bool, wasActive: bool) returns (events: seq<Event>)
      requires t in tombstones ==> !baseline
      modifies this
      ensures Shape() == old(Shape())
      ensures Notes() == SetCell(old(Notes()), t, VisitCell(baseline, wasActive, turn, CellOf(old(Notes()), t)))
      ensures events == if Reports(baseline, wasActive, turn, CellOf(old(Notes()), t)) then [TerminalEvent(turn)] else []
    {
      events := [];
      var ended := Ended(turn);
      if baseline && ended {
        terminal := terminal + {t};
        candidates := candidates - {t};
        return;
      }
      if ended && t !in terminal {
        var answer := FindFinalAnswer(turn);
        var ready := turn.status != "completed" || answer;
        if wasActive && !ready {
          candidates := candidates + {t};
        } else if ready && (wasActive || t in candidates) {
          events := [TerminalEvent(turn)];
          terminal := terminal + {t};
          candidates := candidates - {t};
        }
      }
      if ended {
        tombstones := tombstones - {t};
      } else {
        candidates := candidates - {t};
      }
    }

    /** The events of one turn. */
    method VisitTurn(previous: Option<Memory>, t: TurnId, ghost p: Progress) returns (events: seq<Event>)
      requires t in turns && Notes() == p.marks && (previous.None? ==> t !in tombstones)
      modifies this
      ensures Shape() == old(Shape())
      ensures Progress(Notes(), p.events + events) == Visit(previous, Shape(), t, p)
    {
      var turn, was := turns[t], Was(previous, t);
      var wasActive := was.Some? && Active(was.value);
      events := [];
      if Active(turn) && !wasActive {
        events := [Started(t)];
      }
      if previous.Some? || Active(turn) {
        var items := ProjectItems(t, was, turn);
        events := events + items;
      }
      var end := Conclude(t, turn, previous.None?, wasActive);
      events := events + end;
    }

    method ProjectEvents(previous: Option<Memory>) returns (events: seq<Event>)
      requires Notes() == Carried(previous, turns)
      modifies this
      ensures Shape() == old(Shape())
      ensures Progress(Notes(), events) == Pass(previous, Shape(), |order|)
    {
      events := [];
      for n := 0 to |order|
        invariant Shape() == old(Shape())
        invariant Progress(Notes(), events) == Pass(previous, Shape(), n)
        invariant previous.None? ==> tombstones == map[]
      {
        if order[n] in turns {
          var more := VisitTurn(previous, order[n], Progress(Notes(), events));
          events := events + more;
        }
      }
    }
  }

  /** One revision: the new memory and the events since the previous one. */
  method ProjectSnapshot(previous: Option<Memory>, raws: seq<RawTurn>) returns (memory: Memory, events: seq<Event>)
    ensures (memory, events) == Project(previous, raws)
  {
    var state := new State(raws);
    state.Recall(previous);
    events := state.ProjectEvents(previous);
    memory := state.Value();
  }
}
