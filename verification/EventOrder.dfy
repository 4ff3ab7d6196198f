/** The order in which one revision is told: turn by turn as listed, and of each turn first its start, then its
    items as listed, then its end (agent/codex_desktop_projection.go). */
module EventOrder {
  import opened Json
  import opened Projection
  import opened ProjectionChains

  /** Where an event belongs: the place of its turn in the window and the stage of the turn: 0 for the start, `k`
      for the item in place `k - 1`, and one more than there are items for the end. */
  datatype Place = Place(turn: nat, stage: nat)

  predicate Precedes(a: Place, b: Place) {
    a.turn < b.turn || (a.turn == b.turn && a.stage < b.stage)
  }

  /** The event is one of its turn's at this stage. */
  predicate IsAt(turn: Turn, e: Event, stage: nat) {
    match e
    case Started(t) => t == turn.id && stage == 0
    case Completed(t) => t == turn.id && stage == |turn.order| + 1
    case Error(t, _) => t == turn.id && stage == |turn.order| + 1
    case Activity(t, i) => t == turn.id && 1 <= stage <= |turn.order| && turn.order[stage - 1] == i
    case ItemCompleted(t, i, _, _) => t == turn.id && 1 <= stage <= |turn.order| && turn.order[stage - 1] == i
    case Delta(t, i, _, _) => t == turn.id && 1 <= stage <= |turn.order| && turn.order[stage - 1] == i
    case Replaced(t, i, _, _) => t == turn.id && 1 <= stage <= |turn.order| && turn.order[stage - 1] == i
  }

  ghost predicate Staged(turn: Turn, events: seq<Event>, stages: seq<nat>, from: nat, to: nat) {
    && |stages| == |events|
    && (forall i, j :: 0 <= i < j < |stages| ==> stages[i] < stages[j])
    && (forall i :: 0 <= i < |stages| ==> from <= stages[i] <= to && IsAt(turn, events[i], stages[i]))
  }

  lemma {:induction false} StagedConcat(turn: Turn, a: seq<Event>, x: seq<nat>, b: seq<Event>, y: seq<nat>, from: nat, mid: nat, to: nat)
    requires Staged(turn, a, x, from, mid) && Staged(turn, b, y, mid + 1, to) && from <= mid <= to
    ensures Staged(turn, a + b, x + y, from, to)
  {
  }

  predicate IsItemEvent(e: Event, t: TurnId, i: ItemId) {
    && !e.Started? && !IsEnd(e) && e.turn == t && e.item == i
  }

  lemma {:induction false} OneOfItem(t: TurnId, prior: Option<Item>, item: Item)
    ensures var events := ItemEvents(t, prior, item); |events| <= 1 && (events != [] ==> IsItemEvent(events[0], t, item.id))
  {
  }

  lemma {:induction false} StagedMore(turn: Turn, events: seq<Event>, stages: seq<nat>, one: seq<Event>, n: nat) returns (more: seq<nat>)
    requires 0 < n <= |turn.order| && Staged(turn, events, stages, 1, n - 1)
    requires |one| <= 1 && (one != [] ==> IsItemEvent(one[0], turn.id, turn.order[n - 1]))
    ensures Staged(turn, events + one, more, 1, n)
  {
    more := stages + if one == [] then [] else [n];
  }

  lemma {:induction false} DiffStages(was: Option<Turn>, turn: Turn, n: nat) returns (stages: seq<nat>)
    requires n <= |turn.order| && ConsistentTurn(turn)
    ensures Staged(turn, Diff(turn.id, was, turn, n), stages, 1, n)
  {
    stages := [];
    if n > 0 {
      var i := turn.order[n - 1];
      var before := DiffStages(was, turn, n - 1);
      OneOfItem(turn.id, PriorItem(was, i), turn.items[i]);
      stages := StagedMore(turn, Diff(turn.id, was, turn, n - 1), before, ItemEvents(turn.id, PriorItem(was, i), turn.items[i]), n);
    }
  }

  lemma {:induction false} StagedTurn(turn: Turn, started: seq<Event>, diff: seq<Event>, stages: seq<nat>, end: seq<Event>) returns (all: seq<nat>)
    requires |started| <= 1 && (started != [] ==> started[0] == Started(turn.id))
    requires Staged(turn, diff, stages, 1, |turn.order|)
    requires |end| <= 1 && (end != [] ==> IsEnd(end[0]) && end[0].turn == turn.id)
    ensures Staged(turn, started + diff + end, all, 0, |turn.order| + 1)
  {
    var n := |turn.order|;
    var a, b := if started == [] then [] else [0], if end == [] then [] else [n + 1];
    assert Staged(turn, started, a, 0, 0) && Staged(turn, end, b, n + 1, n + 1);
    StagedConcat(turn, started, a, diff, stages, 0, 0, n);
    StagedConcat(turn, started + diff, a + stages, end, b, 0, n, n + 1);
    all := a + stages + b;
  }

  lemma {:induction false} TurnStages(baseline: bool, was: Option<Turn>, turn: Turn, c: Cell) returns (stages: seq<nat>)
    requires ConsistentTurn(turn)
    ensures Staged(turn, TurnEvents(baseline, was, turn.id, turn, c), stages, 0, |turn.order| + 1)
  {
    var wasActive := was.Some? && Active(was.value);
    var started := if Active(turn) && !wasActive then [Started(turn.id)] else [];
    var diff := if !baseline || Active(turn) then Diff(turn.id, was, turn, |turn.order|) else [];
    var end := if Reports(baseline, wasActive, turn, c) then [TerminalEvent(turn)] else [];
    var all := DiffStages(was, turn, |turn.order|);
    stages := StagedTurn(turn, started, diff, if !baseline || Active(turn) then all else [], end);
  }

  /** The events of the first `n` turns stand at these places. */
  ghost predicate Placed(w: Window, n: nat, events: seq<Event>, places: seq<Place>)
    requires n <= |w.order|
  {
    && |places| == |events|
    && (forall i, j :: 0 <= i < j < |places| ==> Precedes(places[i], places[j]))
    && (forall i :: 0 <= i < |places| ==> places[i].turn < n && w.order[places[i].turn] in w.turns
                                          && IsAt(w.turns[w.order[places[i].turn]], events[i], places[i].stage))
  }

  lemma {:induction false} OneMoreTurn(w: Window, n: nat, events: seq<Event>, places: seq<Place>, more: seq<Event>, stages: seq<nat>, to: nat)
    returns (all: seq<Place>)
    requires n < |w.order| && w.order[n] in w.turns && Placed(w, n, events, places) && Staged(w.turns[w.order[n]], more, stages, 0, to)
    ensures Placed(w, n + 1, events + more, all)
  {
    all := places + seq(|stages|, k requires 0 <= k < |stages| => Place(n, stages[k]));
  }

  lemma {:induction false} TrailPlaces(previous: Option<Memory>, w: Window, ps: seq<Progress>, n: nat) returns (places: seq<Place>)
    requires Consistent(w) && Trail(previous, w, ps) && n <= |w.order|
    ensures Placed(w, n, ps[n].events, places)
  {
    places := [];
    if n > 0 {
      var t := w.order[n - 1];
      var before := TrailPlaces(previous, w, ps, n - 1);
      assert Visits(previous, w, ps, n - 1);
      var c := CellOf(ps[n - 1].marks, t);
      var stages := TurnStages(previous.None?, Was(previous, t), w.turns[t], c);
      places := OneMoreTurn(w, n - 1, ps[n - 1].events, before,
                            TurnEvents(previous.None?, Was(previous, t), t, w.turns[t], c), stages, |w.turns[t].order| + 1);
    }
  }

  /** Main theorem: the events of a revision come in the order of its window, each listing of an item or a turn
      accounting for at most one event of its stage. */
  lemma {:induction false} EventsInOrder(previous: Option<Memory>, raws: seq<RawTurn>) returns (places: seq<Place>)
    ensures var (m, events) := Project(previous, raws); Placed(m.window, |m.window.order|, events, places)
  {
    var w := Shown(raws);
    ShownConsistent(raws);
    var ps := PassTrail(previous, w);
    places := TrailPlaces(previous, w, ps, |w.order|);
  }
}
