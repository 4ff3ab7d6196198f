/** Which item events a revision reports: exactly those that its listed items call for
    (agent/codex_desktop_projection.go, projectCodexDesktopItems and codexDesktopTextEvent). */
module ItemReports {
  import opened Json
  import opened Projection
  import opened ProjectionChains
  import Text

  /** An assistant's message that is complete: it says so, or says nothing and is a comment or a final answer. */
  predicate Complete(item: Item) {
    var status, phase := Text.Lower(Text.Trim(item.status)), Text.Lower(Text.Trim(item.phase));
    status == "completed" || (status == "" && (phase == "commentary" || phase == "final_answer"))
  }

  /** What an item calls for, given what was remembered of it.  A command: an activity, when it is new or its
      status changed.  A message with text: a completion, when it is complete and was not so with this text and
      phase; otherwise, when the text changed, the suffix that was added, or the whole text if it is no
      continuation. */
  predicate CallsFor(t: TurnId, prior: Option<Item>, item: Item, e: Event) {
    var before := if prior.Some? then prior.value.text else "";
    var news := Complete(item) && !(prior.Some? && Complete(prior.value) && before == item.text && prior.value.phase == item.phase);
    match e
    case Activity(u, i) =>
      u == t && i == item.id && Text.Lower(item.itemType) == "commandexecution" && !(prior.Some? && prior.value.status == item.status)
    case ItemCompleted(u, i, phase, text) =>
      u == t && i == item.id && phase == item.phase && text == item.text && Text.Lower(item.itemType) == "agentmessage" && text != "" && news
    case Delta(u, i, phase, delta) =>
      && u == t && i == item.id && phase == item.phase && Text.Lower(item.itemType) == "agentmessage" && item.text != "" && !news
      && item.text == before + delta && (prior.Some? ==> delta != "")
    case Replaced(u, i, phase, text) =>
      && u == t && i == item.id && phase == item.phase && text == item.text && Text.Lower(item.itemType) == "agentmessage" && text != "" && !news
      && !(|before| <= |text| && text[..|before|] == before)
    case _ => false
  }

  lemma {:induction false} ItemExactly(t: TurnId, prior: Option<Item>, item: Item, e: Event)
    ensures e in ItemEvents(t, prior, item) <==> CallsFor(t, prior, item, e)
    ensures |ItemEvents(t, prior, item)| <= 1
  {
    assert "commandexecution" != "agentmessage" by {
      assert "commandexecution"[0] == 'c';
    }
    if IsMessage(item) {
      TextExactly(t, prior, item, e);
    }
  }

  lemma {:induction false} TextExactly(t: TurnId, prior: Option<Item>, item: Item, e: Event)
    requires IsMessage(item)
    ensures e in TextEvents(t, prior, item) <==> CallsFor(t, prior, item, e) && !e.Activity?
  {
    var before := if prior.Some? then prior.value.text else "";
    if HasPrefix(item.text, before) {
      assert item.text == before + item.text[|before|..];
      if e.Delta? && item.text == before + e.delta {
        assert e.delta == item.text[|before|..];
      }
    }
    if e.Delta? && item.text == before + e.delta {
      assert item.text[..|before|] == before && item.text[|before|..] == e.delta;
    }
  }

  /** The first `n` listed items. */
  lemma {:induction false} DiffExactly(t: TurnId, was: Option<Turn>, turn: Turn, n: nat, e: Event)
    requires n <= |turn.order|
    ensures e in Diff(t, was, turn, n) <==>
              exists k :: 0 <= k < n && turn.order[k] in turn.items &&
                CallsFor(t, PriorItem(was, turn.order[k]), turn.items[turn.order[k]], e)
  {
    if n > 0 {
      DiffExactly(t, was, turn, n - 1, e);
      var i := turn.order[n - 1];
      if i in turn.items {
        ItemExactly(t, PriorItem(was, i), turn.items[i], e);
      }
    }
  }

  /** Neither the start nor the end of a turn. */
  predicate IsItemEvent(e: Event) {
    e.Activity? || e.ItemCompleted? || e.Delta? || e.Replaced?
  }

  /** The items of the turn are told: always except in the first revision of a connection, and there if the turn
      runs. */
  predicate Told(previous: Option<Memory>, turn: Turn) {
    previous.Some? || turn.status in {"inProgress", "running", "active", "processing"}
  }

  /** Item `i` of turn `t` of the window calls for the event. */
  ghost predicate Due(previous: Option<Memory>, w: Window, t: TurnId, i: ItemId, e: Event) {
    && t in w.turns && Told(previous, w.turns[t]) && i in w.turns[t].items
    && CallsFor(t, PriorItem(Was(previous, t), i), w.turns[t].items[i], e)
  }

  /** Neither start nor end of a turn is an item event. */
  lemma {:induction false} TurnTells(previous: Option<Memory>, was: Option<Turn>, t: TurnId, turn: Turn, c: Cell, e: Event)
    requires IsItemEvent(e)
    ensures e in TurnEvents(previous.None?, was, t, turn, c) <==> Told(previous, turn) && e in Diff(t, was, turn, |turn.order|)
  {
  }

  lemma {:induction false} TurnExactly(previous: Option<Memory>, w: Window, t: TurnId, c: Cell, e: Event)
    requires Consistent(w) && t in w.turns && IsItemEvent(e)
    ensures e in TurnEvents(previous.None?, Was(previous, t), t, w.turns[t], c) <==> exists i :: Due(previous, w, t, i, e)
  {
    var turn, was := w.turns[t], Was(previous, t);
    TurnTells(previous, was, t, turn, c, e);
    DiffExactly(t, was, turn, |turn.order|, e);
    if k :| 0 <= k < |turn.order| && turn.order[k] in turn.items && CallsFor(t, PriorItem(was, turn.order[k]), turn.items[turn.order[k]], e) {
      assert Told(previous, turn) ==> Due(previous, w, t, turn.order[k], e);
    }
    if i :| Due(previous, w, t, i, e) {
      var k :| 0 <= k < |turn.order| && turn.order[k] == i;
    }
  }

  lemma {:induction false} TrailExactly(previous: Option<Memory>, w: Window, ps: seq<Progress>, n: nat, e: Event)
    requires Consistent(w) && Trail(previous, w, ps) && n <= |w.order| && IsItemEvent(e)
    ensures e in ps[n].events <==> exists k :: 0 <= k < n && DueAt(previous, w, k, e)
  {
    if n > 0 {
      TrailExactly(previous, w, ps, n - 1, e);
      assert Visits(previous, w, ps, n - 1);
      VisitExactly(previous, w, n - 1, ps[n - 1], e);
    }
  }

  /** Some item of the `k`-th turn calls for the event. */
  ghost predicate DueAt(previous: Option<Memory>, w: Window, k: nat, e: Event)
    requires k < |w.order|
  {
    exists i :: Due(previous, w, w.order[k], i, e)
  }

  lemma {:induction false} VisitExactly(previous: Option<Memory>, w: Window, k: nat, p: Progress, e: Event)
    requires Consistent(w) && k < |w.order| && w.order[k] in w.turns && IsItemEvent(e)
    ensures e in Visit(previous, w, w.order[k], p).events <==> e in p.events || DueAt(previous, w, k, e)
  {
    TurnExactly(previous, w, w.order[k], CellOf(p.marks, w.order[k]), e);
  }

  /** Main theorem: an item event is reported exactly if an item of a turn in the window calls for it, given what
      was remembered of that item. */
  lemma {:induction false} ItemEventExactly(previous: Option<Memory>, raws: seq<RawTurn>, e: Event)
    requires IsItemEvent(e)
    ensures e in Project(previous, raws).1 <==>
              exists t, i :: Due(previous, Project(previous, raws).0.window, t, i, e)
  {
    var w := Shown(raws);
    ShownConsistent(raws);
    var ps := PassTrail(previous, w);
    TrailExactly(previous, w, ps, |w.order|, e);
    DueSomewhere(previous, w, e);
  }

  lemma {:induction false} DueSomewhere(previous: Option<Memory>, w: Window, e: Event)
    requires Consistent(w)
    ensures (exists k :: 0 <= k < |w.order| && DueAt(previous, w, k, e)) <==> exists t, i :: Due(previous, w, t, i, e)
  {
    if t, i :| Due(previous, w, t, i, e) {
      var k :| 0 <= k < |w.order| && w.order[k] == t;
      assert DueAt(previous, w, k, e);
    }
  }
}
