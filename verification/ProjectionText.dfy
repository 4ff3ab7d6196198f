/** A reader that folds an item's text events holds the item's latest text. */
module ProjectionText {
  import opened Json
  import Text
  import opened Projection
  import opened ProjectionChains

  /** The reader of item `i` of turn `t`: append a delta, take over a full text, ignore the rest. */
  function Heard(text: string, e: Event, t: TurnId, i: ItemId): string {
    match e
    case Delta(u, j, _, delta) => if u == t && j == i then text + delta else text
    case Replaced(u, j, _, full) => if u == t && j == i then full else text
    case ItemCompleted(u, j, _, full) => if u == t && j == i then full else text
    case _ => text
  }

  function Hear(text: string, events: seq<Event>, t: TurnId, i: ItemId): string {
    if events == [] then text
    else
      var n := |events| - 1;
      Heard(Hear(text, events[..n], t, i), events[n], t, i)
  }

  /** Hearing the same events `k` times. */
  function Again(text: string, events: seq<Event>, k: nat, t: TurnId, i: ItemId): string {
    if k == 0 then text else Hear(Again(text, events, k - 1, t, i), events, t, i)
  }

  lemma {:induction false} HearConcat(text: string, a: seq<Event>, b: seq<Event>, t: TurnId, i: ItemId)
    ensures Hear(text, a + b, t, i) == Hear(Hear(text, a, t, i), b, t, i)
    decreases |b|
  {
    if b == [] {
      assert a + b == a;
    } else {
      var n := |b| - 1;
      assert (a + b)[..|a + b| - 1] == a + b[..n];
      HearConcat(text, a, b[..n], t, i);
    }
  }

  lemma {:induction false} HearOne(text: string, e: Event, t: TurnId, i: ItemId)
    ensures Hear(text, [e], t, i) == Heard(text, e, t, i)
  {
    assert [e][..0] == [];
  }

  lemma {:induction false} AgainAdds(text: string, events: seq<Event>, a: nat, b: nat, t: TurnId, i: ItemId)
    ensures Again(Again(text, events, a, t, i), events, b, t, i) == Again(text, events, a + b, t, i)
    decreases b
  {
    if b > 0 {
      AgainAdds(text, events, a, b - 1, t, i);
    }
  }

  // ---- One item ----

  function Prior(prior: Option<Item>): string {
    if prior.Some? then prior.value.text else ""
  }

  lemma {:induction false} DeltaRepeats(text: string, e: Event, k: nat, t: TurnId, i: ItemId)
    requires e.Delta? && e.turn == t && e.item == i
    ensures |Again(text, [e], k, t, i)| == |text| + k * |e.delta|
    ensures k == 1 ==> Again(text, [e], k, t, i) == text + e.delta
  {
    if k > 0 {
      DeltaRepeats(text, e, k - 1, t, i);
      HearOne(Again(text, [e], k - 1, t, i), e, t, i);
      assert k * |e.delta| == (k - 1) * |e.delta| + |e.delta|;
    }
  }

  lemma {:induction false} ReplaceRepeats(text: string, e: Event, k: nat, t: TurnId, i: ItemId)
    requires (e.Replaced? || e.ItemCompleted?) && e.turn == t && e.item == i && k > 0
    ensures Again(text, [e], k, t, i) == e.text
  {
    HearOne(Again(text, [e], k - 1, t, i), e, t, i);
  }

  lemma {:induction false} SilenceRepeats(text: string, k: nat, t: TurnId, i: ItemId)
    ensures Again(text, [], k, t, i) == text
  {
    if k > 0 {
      SilenceRepeats(text, k - 1, t, i);
    }
  }

  /** What it takes for a reader that holds `prior` to hold the item's text next: the text is the same; or the
      revision is audible, the item is a message with text, and it is listed once unless its event carries the
      whole text because the item is complete or was rewritten. */
  predicate Tells(audible: bool, prior: string, item: Item, once: bool) {
    item.text == prior ||
    (audible && IsMessage(item) && item.text != "" && (once || IsCompletedMessage(item) || !HasPrefix(item.text, prior)))
  }

  /** What the event of an item says of its text, if there is one. */
  lemma {:induction false} ItemSays(t: TurnId, prior: Option<Item>, item: Item)
    ensures var es, text := ItemEvents(t, prior, item), Prior(prior);
            && (es == [] || es == [es[0]])
            && (es == [] || es[0].Activity? ==> item.text == text || !IsMessage(item) || item.text == "")
            && (es != [] && !es[0].Activity? ==>
                  && IsMessage(item) && item.text != "" && IsText(es[0]) && es[0].turn == t && es[0].item == item.id
                  && (es[0].Delta? ==> item.text == text + es[0].delta && es[0].delta != "" && !IsCompletedMessage(item))
                  && (!es[0].Delta? ==> es[0].text == item.text && (IsCompletedMessage(item) || !HasPrefix(item.text, text))))
  {
  }

  lemma {:induction false} DeltaSaysOnce(text: string, e: Event, k: nat, t: TurnId, i: ItemId)
    requires e.Delta? && e.turn == t && e.item == i && e.delta != "" && k > 0
    ensures Again(text, [e], k, t, i) == text + e.delta <==> k == 1
  {
    DeltaRepeats(text, e, k, t, i);
    if k > 1 {
      assert k * |e.delta| == (k - 1) * |e.delta| + |e.delta|;
      assert (k - 1) * |e.delta| > 0;
    }
  }

  /** An item visited `k` times. */
  lemma {:induction false} StepReproducesExactly(t: TurnId, prior: Option<Item>, item: Item, k: nat)
    requires k > 0
    ensures Again(Prior(prior), ItemEvents(t, prior, item), k, t, item.id) == item.text
            <==> Tells(true, Prior(prior), item, k == 1)
  {
    var events := ItemEvents(t, prior, item);
    var text := Prior(prior);
    ItemSays(t, prior, item);
    if events == [] {
      SilenceRepeats(text, k, t, item.id);
    } else if events[0].Delta? {
      DeltaSaysOnce(text, events[0], k, t, item.id);
      assert HasPrefix(text + events[0].delta, text);
    } else if events[0].Activity? {
      ActivityRepeats(text, events[0], k, t, item.id);
    } else {
      ReplaceRepeats(text, events[0], k, t, item.id);
    }
  }

  lemma {:induction false} ActivityRepeats(text: string, e: Event, k: nat, t: TurnId, i: ItemId)
    requires e.Activity?
    ensures Again(text, [e], k, t, i) == text
  {
    if k > 0 {
      ActivityRepeats(text, e, k - 1, t, i);
      HearOne(text, e, t, i);
    }
  }

  // ---- One turn ----

  lemma {:induction false} OtherItem(text: string, u: TurnId, prior: Option<Item>, item: Item, t: TurnId, i: ItemId)
    requires u != t || item.id != i
    ensures Hear(text, ItemEvents(u, prior, item), t, i) == text
  {
    var events := ItemEvents(u, prior, item);
    if events != [] {
      assert events == [events[0]];
      HearOne(text, events[0], t, i);
    }
  }

  lemma {:induction false} OtherTurn(text: string, events: seq<Event>, u: TurnId, t: TurnId, i: ItemId)
    requires u != t && forall e :: e in events ==> e.turn == u
    ensures Hear(text, events, t, i) == text
  {
    if events != [] {
      OtherTurn(text, events[..|events| - 1], u, t, i);
    }
  }

  /** Events that the reader of item `i` does not hear. */
  ghost predicate Unheard(es: seq<Event>, t: TurnId, i: ItemId) {
    forall x :: Hear(x, es, t, i) == x
  }

  /** Events `d` hear like `k` times `sent`; with one more item, listened to or not. */
  lemma {:induction false} HearItem(text: string, d: seq<Event>, sent: seq<Event>, es: seq<Event>, k: nat, own: bool, t: TurnId, i: ItemId)
    requires Hear(text, d, t, i) == Again(text, sent, k, t, i)
    requires if own then es == sent else Unheard(es, t, i)
    ensures Hear(text, d + es, t, i) == Again(text, sent, if own then k + 1 else k, t, i)
  {
    HearConcat(text, d, es, t, i);
  }

  /** Chunks of events, one per item of `order`, and their running concatenation. */
  ghost predicate Sums(parts: seq<seq<Event>>, sums: seq<seq<Event>>) {
    && |sums| == |parts| + 1 && sums[0] == []
    && (forall k :: 0 <= k < |parts| ==> sums[k + 1] == sums[k] + parts[k])
  }

  ghost predicate Chunks(order: seq<ItemId>, parts: seq<seq<Event>>, sent: seq<Event>, t: TurnId, i: ItemId) {
    |parts| == |order| && forall k :: 0 <= k < |order| ==> if order[k] == i then parts[k] == sent else Unheard(parts[k], t, i)
  }

  lemma {:induction false} HearChunks(text: string, order: seq<ItemId>, parts: seq<seq<Event>>, sums: seq<seq<Event>>, sent: seq<Event>, n: nat, t: TurnId, i: ItemId)
    requires Chunks(order, parts, sent, t, i) && Sums(parts, sums) && n <= |order|
    ensures Hear(text, sums[n], t, i) == Again(text, sent, Count(order[..n], i), t, i)
  {
    if n > 0 {
      assert order[..n][..n - 1] == order[..n - 1];
      HearChunks(text, order, parts, sums, sent, n - 1, t, i);
      HearItem(text, sums[n - 1], sent, parts[n - 1], Count(order[..n - 1], i), order[n - 1] == i, t, i);
      assert sums[n - 1 + 1] == sums[n - 1] + parts[n - 1];
    }
  }

  lemma {:induction false} OtherItems(t: TurnId, prior: Option<Item>, item: Item, i: ItemId)
    requires item.id != i
    ensures Unheard(ItemEvents(t, prior, item), t, i)
  {
    forall x ensures Hear(x, ItemEvents(t, prior, item), t, i) == x {
      OtherItem(x, t, prior, item, t, i);
    }
  }

  /** The diff of a turn is the concatenation of its items' events. */
  lemma {:induction false} DiffSums(t: TurnId, was: Option<Turn>, turn: Turn, parts: seq<seq<Event>>) returns (sums: seq<seq<Event>>)
    requires ConsistentTurn(turn) && |parts| == |turn.order|
    requires forall k :: 0 <= k < |parts| ==> turn.order[k] in turn.items && parts[k] == ItemEvents(t, PriorItem(was, turn.order[k]), turn.items[turn.order[k]])
    ensures Sums(parts, sums) && sums[|parts|] == Diff(t, was, turn, |turn.order|)
  {
    sums := seq(|parts| + 1, k requires 0 <= k <= |parts| => Diff(t, was, turn, k));
  }

  lemma {:induction false} DiffParts(t: TurnId, was: Option<Turn>, turn: Turn, i: ItemId, sent: seq<Event>) returns (parts: seq<seq<Event>>)
    requires ConsistentTurn(turn)
    requires i in turn.items ==> sent == ItemEvents(t, PriorItem(was, i), turn.items[i])
    ensures Chunks(turn.order, parts, sent, t, i)
    ensures forall k :: 0 <= k < |parts| ==> turn.order[k] in turn.items && parts[k] == ItemEvents(t, PriorItem(was, turn.order[k]), turn.items[turn.order[k]])
  {
    var n := |turn.order|;
    assert forall k :: 0 <= k < n ==> turn.order[k] in turn.order;
    parts := seq(n, k requires 0 <= k < n => ItemEvents(t, PriorItem(was, turn.order[k]), turn.items[turn.order[k]]));
    forall k | 0 <= k < n
      ensures if turn.order[k] == i then parts[k] == sent else Unheard(parts[k], t, i)
    {
      if turn.order[k] != i {
        OtherItems(t, PriorItem(was, turn.order[k]), turn.items[turn.order[k]], i);
      }
    }
  }

  lemma {:induction false} HearDiff(text: string, t: TurnId, was: Option<Turn>, turn: Turn, i: ItemId, sent: seq<Event>)
    requires ConsistentTurn(turn)
    requires i in turn.items ==> sent == ItemEvents(t, PriorItem(was, i), turn.items[i])
    ensures Hear(text, Diff(t, was, turn, |turn.order|), t, i) == Again(text, sent, Count(turn.order, i), t, i)
  {
    var n := |turn.order|;
    var parts := DiffParts(t, was, turn, i, sent);
    var sums := DiffSums(t, was, turn, parts);
    HearChunks(text, turn.order, parts, sums, sent, n, t, i);
    assert turn.order[..n] == turn.order;
  }

  /** The events of item `i` in one visit of its turn, and how often they are sent. */
  function Sent(baseline: bool, was: Option<Turn>, t: TurnId, turn: Turn, i: ItemId): seq<Event> {
    if i in turn.items && (!baseline || Active(turn)) then ItemEvents(t, PriorItem(was, i), turn.items[i]) else []
  }

  predicate IsText(e: Event) { e.Delta? || e.Replaced? || e.ItemCompleted? }

  /** Events without text around others are not heard. */
  lemma {:induction false} HearBetween(text: string, a: seq<Event>, events: seq<Event>, b: seq<Event>, t: TurnId, i: ItemId)
    requires |a| <= 1 && |b| <= 1 && forall e :: e in a + b ==> !IsText(e)
    ensures Hear(text, a + events + b, t, i) == Hear(text, events, t, i)
  {
    HearConcat(text, a, events, t, i);
    HearConcat(text, a + events, b, t, i);
    if a != [] {
      assert a == [a[0]] && a[0] in a + b;
      HearOne(text, a[0], t, i);
    }
    if b != [] {
      assert b == [b[0]] && b[0] in a + b;
      HearOne(Hear(text, events, t, i), b[0], t, i);
    }
  }

  lemma {:induction false} HearSent(text: string, baseline: bool, was: Option<Turn>, turn: Turn, t: TurnId, i: ItemId)
    requires ConsistentTurn(turn)
    ensures Hear(text, if !baseline || Active(turn) then Diff(t, was, turn, |turn.order|) else [], t, i)
            == Again(text, Sent(baseline, was, t, turn, i), Count(turn.order, i), t, i)
  {
    HearDiff(text, t, was, turn, i, Sent(false, was, t, turn, i));
    SilenceRepeats(text, Count(turn.order, i), t, i);
  }

  lemma {:induction false} HearTurn(text: string, baseline: bool, was: Option<Turn>, turn: Turn, c: Cell, t: TurnId, i: ItemId)
    requires ConsistentTurn(turn)
    ensures Hear(text, TurnEvents(baseline, was, t, turn, c), t, i)
            == Again(text, Sent(baseline, was, t, turn, i), Count(turn.order, i), t, i)
  {
    var wasActive := was.Some? && Active(was.value);
    var started := if Active(turn) && !wasActive then [Started(t)] else [];
    var diff := if !baseline || Active(turn) then Diff(t, was, turn, |turn.order|) else [];
    var end := if Reports(baseline, wasActive, turn, c) then [TerminalEvent(turn)] else [];
    HearBetween(text, started, diff, end, t, i);
    HearSent(text, baseline, was, turn, t, i);
  }

  // ---- One projection ----

  lemma {:induction false} TurnEventsOwn(baseline: bool, was: Option<Turn>, t: TurnId, turn: Turn, c: Cell)
    requires turn.id == t
    ensures forall e :: e in TurnEvents(baseline, was, t, turn, c) ==> e.turn == t
  {
    DiffNoEnds(t, was, turn, |turn.order|);
  }

  lemma {:induction false} HearVisit(text: string, previous: Option<Memory>, w: Window, u: TurnId, p: Progress, t: TurnId, i: ItemId)
    requires Consistent(w) && u in w.turns
    ensures Hear(text, Visit(previous, w, u, p).events, t, i) ==
              var heard := Hear(text, p.events, t, i);
              if u != t then heard
              else Again(heard, Sent(previous.None?, Was(previous, t), t, w.turns[t], i), Count(w.turns[t].order, i), t, i)
  {
    var c := CellOf(p.marks, u);
    var events := TurnEvents(previous.None?, Was(previous, u), u, w.turns[u], c);
    HearConcat(text, p.events, events, t, i);
    if u == t {
      HearTurn(Hear(text, p.events, t, i), previous.None?, Was(previous, t), w.turns[t], c, t, i);
    } else {
      TurnEventsOwn(previous.None?, Was(previous, u), u, w.turns[u], c);
      OtherTurn(Hear(text, p.events, t, i), events, u, t, i);
    }
  }

  /** How often a revision visits item `i` of turn `t` while looking at the first `n` turns. */
  function Visited(w: Window, n: nat, t: TurnId, i: ItemId): nat
    requires n <= |w.order| && t in w.turns
  {
    if n == 0 then 0
    else Visited(w, n - 1, t, i) + if w.order[n - 1] == t then Count(w.turns[t].order, i) else 0
  }

  lemma {:induction false} VisitedCounts(w: Window, n: nat, t: TurnId, i: ItemId)
    requires n <= |w.order| && t in w.turns && Count(w.turns[t].order, i) > 0
    ensures var turns, items := Count(w.order[..n], t), Count(w.turns[t].order, i);
            && (turns == 0 ==> Visited(w, n, t, i) == 0)
            && (turns == 1 ==> Visited(w, n, t, i) == items)
            && (turns >= 1 ==> Visited(w, n, t, i) >= turns && Visited(w, n, t, i) >= items)
  {
    if n > 0 {
      assert w.order[..n][..n - 1] == w.order[..n - 1];
      VisitedCounts(w, n - 1, t, i);
    }
  }

  lemma {:induction false} HearTrail(text: string, previous: Option<Memory>, w: Window, ps: seq<Progress>, n: nat, t: TurnId, i: ItemId, sent: seq<Event>)
    requires Consistent(w) && Trail(previous, w, ps) && n <= |w.order| && t in w.turns
    requires sent == Sent(previous.None?, Was(previous, t), t, w.turns[t], i)
    ensures Hear(text, ps[n].events, t, i) == Again(text, sent, Visited(w, n, t, i), t, i)
  {
    if n > 0 {
      HearTrail(text, previous, w, ps, n - 1, t, i, sent);
      HearNext(text, previous, w, ps, n - 1, t, i, sent, Visited(w, n - 1, t, i));
    }
  }

  lemma {:induction false} HearNext(text: string, previous: Option<Memory>, w: Window, ps: seq<Progress>, n: nat, t: TurnId, i: ItemId, sent: seq<Event>, k: nat)
    requires Consistent(w) && Trail(previous, w, ps) && n < |w.order| && t in w.turns
    requires sent == Sent(previous.None?, Was(previous, t), t, w.turns[t], i)
    requires Hear(text, ps[n].events, t, i) == Again(text, sent, k, t, i)
    ensures Hear(text, ps[n + 1].events, t, i)
            == Again(text, sent, k + if w.order[n] == t then Count(w.turns[t].order, i) else 0, t, i)
  {
    assert Visits(previous, w, ps, n);
    HearVisit(text, previous, w, w.order[n], ps[n], t, i);
    AgainAdds(text, sent, k, Count(w.turns[t].order, i), t, i);
  }

  lemma {:induction false} HearTrailOfOthers(text: string, previous: Option<Memory>, w: Window, ps: seq<Progress>, n: nat, t: TurnId, i: ItemId)
    requires Consistent(w) && Trail(previous, w, ps) && n <= |w.order| && t !in w.turns
    ensures Hear(text, ps[n].events, t, i) == text
  {
    if n > 0 {
      HearTrailOfOthers(text, previous, w, ps, n - 1, t, i);
      assert Visits(previous, w, ps, n - 1);
      HearVisit(text, previous, w, w.order[n - 1], ps[n - 1], t, i);
    }
  }

  lemma {:induction false} HearPass(text: string, previous: Option<Memory>, w: Window, t: TurnId, i: ItemId)
    requires Consistent(w)
    ensures Hear(text, Pass(previous, w, |w.order|).events, t, i) ==
              if t in w.turns then
                Again(text, Sent(previous.None?, Was(previous, t), t, w.turns[t], i), Visited(w, |w.order|, t, i), t, i)
              else text
  {
    var ps := PassTrail(previous, w);
    if t in w.turns {
      HearTrail(text, previous, w, ps, |w.order|, t, i, Sent(previous.None?, Was(previous, t), t, w.turns[t], i));
    } else {
      HearTrailOfOthers(text, previous, w, ps, |w.order|, t, i);
    }
  }

  /** The item as a revision shows it. */
  function ItemSighting(raws: seq<RawTurn>, t: TurnId, i: ItemId): Option<Item> {
    PriorItem(Sighting(raws, t), i)
  }

  /** Turn and item are listed once. */
  predicate Once(raws: seq<RawTurn>, t: TurnId, i: ItemId) {
    Sighting(raws, t).Some? && Count(Shown(raws).order, t) == 1 && Count(Sighting(raws, t).value.order, i) == 1
  }

  /** The item's events are sent at all: not of a turn at rest in a first revision. */
  predicate Audible(previous: Option<Memory>, raws: seq<RawTurn>, t: TurnId) {
    previous.Some? || SeenActive(raws, t)
  }

  /** An item that the revision does not show is not heard. */
  lemma {:induction false} HearNothing(text: string, previous: Option<Memory>, raws: seq<RawTurn>, t: TurnId, i: ItemId)
    requires ItemSighting(raws, t, i).None?
    ensures Hear(text, Project(previous, raws).1, t, i) == text
  {
    var w := Shown(raws);
    ShownConsistent(raws);
    HearPass(text, previous, w, t, i);
    if t in w.turns {
      SilenceRepeats(text, Visited(w, |w.order|, t, i), t, i);
    }
  }

  /** Of all events of a revision the reader hears the item's own, as often as the item is listed. */
  lemma {:induction false} HearProject(text: string, previous: Option<Memory>, raws: seq<RawTurn>, t: TurnId, i: ItemId)
    returns (k: nat)
    requires ItemSighting(raws, t, i).Some?
    ensures k > 0 && (k == 1 <==> Once(raws, t, i)) && ItemSighting(raws, t, i).value.id == i
    ensures Hear(text, Project(previous, raws).1, t, i) ==
              if Audible(previous, raws, t) then
                Again(text, ItemEvents(t, PriorItem(Was(previous, t), i), ItemSighting(raws, t, i).value), k, t, i)
              else text
  {
    var w := Shown(raws);
    ShownConsistent(raws);
    HearPass(text, previous, w, t, i);
    assert w.order[..|w.order|] == w.order;
    k := Visited(w, |w.order|, t, i);
    CountAbsent(w.order, t);
    CountAbsent(w.turns[t].order, i);
    VisitedCounts(w, |w.order|, t, i);
    SilenceRepeats(text, k, t, i);
  }

  /** Exactly when the events of one revision take a reader from the remembered text to the shown one. */
  lemma {:induction false} ProjectReproducesExactly(previous: Option<Memory>, raws: seq<RawTurn>, t: TurnId, i: ItemId)
    requires ItemSighting(raws, t, i).Some?
    ensures var prior, item := Prior(PriorItem(Was(previous, t), i)), ItemSighting(raws, t, i).value;
            Hear(prior, Project(previous, raws).1, t, i) == item.text
            <==> Tells(Audible(previous, raws, t), prior, item, Once(raws, t, i))
  {
    var prior := PriorItem(Was(previous, t), i);
    var k := HearProject(Prior(prior), previous, raws, t, i);
    StepReproducesExactly(t, prior, ItemSighting(raws, t, i).value, k);
  }

  // ---- Chains ----

  /** No earlier revision showed the item, so nothing remembered holds it. */
  ghost predicate NeverHeld(m: Memory, t: TurnId, i: ItemId) {
    && (t in m.window.turns ==> i !in m.window.turns[t].items)
    && (t in m.marks.tombstones ==> i !in m.marks.tombstones[t].items)
  }

  lemma {:induction false} UnseenIsNotHeld(memories: seq<Memory>, events: seq<seq<Event>>, raws: seq<seq<RawTurn>>, n: nat, t: TurnId, i: ItemId)
    requires Chain(memories, events, raws) && n <= |raws|
    requires forall j :: 0 <= j < n ==> ItemSighting(raws[j], t, i).None?
    ensures n > 0 ==> NeverHeld(memories[n - 1], t, i)
    ensures PriorItem(Was(Before(memories, n), t), i) == None
  {
    if n > 0 {
      UnseenIsNotHeld(memories, events, raws, n - 1, t, i);
      assert Link(memories, events, raws, n - 1);
      assert ItemSighting(raws[n - 1], t, i).None?;
      var w := Shown(raws[n - 1]);
      PassTombstones(Before(memories, n - 1), w, |w.order|, t);
    }
  }

  /** What the reader holds after the first `n` revisions. */
  function HearAll(start: string, events: seq<seq<Event>>, n: nat, t: TurnId, i: ItemId): string
    requires n <= |events|
  {
    if n == 0 then start else Hear(HearAll(start, events, n - 1, t, i), events[n - 1], t, i)
  }

  lemma {:induction false} SilentUntilSeen(start: string, memories: seq<Memory>, events: seq<seq<Event>>, raws: seq<seq<RawTurn>>, n: nat, t: TurnId, i: ItemId)
    requires Chain(memories, events, raws) && n <= |raws|
    requires forall j :: 0 <= j < n ==> ItemSighting(raws[j], t, i).None?
    ensures HearAll(start, events, n, t, i) == start
  {
    if n > 0 {
      SilentUntilSeen(start, memories, events, raws, n - 1, t, i);
      assert Link(memories, events, raws, n - 1);
      HearNothing(start, Before(memories, n - 1), raws[n - 1], t, i);
    }
  }

  /** The item is first shown by revision `m` and from then on always, up to revision `n`. */
  ghost predicate Stays(raws: seq<seq<RawTurn>>, m: nat, n: nat, t: TurnId, i: ItemId)
    requires m < n <= |raws|
  {
    && (forall j :: 0 <= j < m ==> ItemSighting(raws[j], t, i).None?)
    && (forall j :: m <= j < n ==> ItemSighting(raws[j], t, i).Some?)
  }

  /** The text before revision `k`. */
  function TextBefore(raws: seq<seq<RawTurn>>, m: nat, k: nat, t: TurnId, i: ItemId): string
    requires m <= k < |raws|
  {
    if k == m then "" else Prior(ItemSighting(raws[k - 1], t, i))
  }

  /** Revision `k` tells the reader its text. */
  predicate TellsAt(raws: seq<seq<RawTurn>>, m: nat, k: nat, t: TurnId, i: ItemId)
    requires m <= k < |raws|
  {
    ItemSighting(raws[k], t, i).Some? &&
    Tells(k > 0 || SeenActive(raws[0], t), TextBefore(raws, m, k, t, i), ItemSighting(raws[k], t, i).value, Once(raws[k], t, i))
  }

  /** The reader holds the text of the last of the first `k` revisions. */
  predicate HoldsAt(events: seq<seq<Event>>, raws: seq<seq<RawTurn>>, k: nat, t: TurnId, i: ItemId)
    requires 0 < k <= |raws| == |events|
  {
    HearAll("", events, k, t, i) == Prior(ItemSighting(raws[k - 1], t, i))
  }

  /** A reader that holds the text before a revision holds the text after it exactly if the revision tells. */
  lemma {:induction false} FoldStep(memories: seq<Memory>, events: seq<seq<Event>>, raws: seq<seq<RawTurn>>, m: nat, k: nat, n: nat, t: TurnId, i: ItemId)
    requires Chain(memories, events, raws) && m <= k < n <= |raws| && Stays(raws, m, n, t, i)
    requires k > m ==> HoldsAt(events, raws, k, t, i)
    ensures HoldsAt(events, raws, k + 1, t, i) <==> TellsAt(raws, m, k, t, i)
  {
    assert Link(memories, events, raws, k) && ItemSighting(raws[k], t, i).Some?;
    if k == m {
      SilentUntilSeen("", memories, events, raws, m, t, i);
      UnseenIsNotHeld(memories, events, raws, m, t, i);
    } else {
      assert Link(memories, events, raws, k - 1) && ItemSighting(raws[k - 1], t, i).Some?;
      assert PriorItem(Was(Before(memories, k), t), i) == ItemSighting(raws[k - 1], t, i);
    }
    ProjectReproducesExactly(Before(memories, k), raws[k], t, i);
  }

  lemma {:induction false} FoldHolds(memories: seq<Memory>, events: seq<seq<Event>>, raws: seq<seq<RawTurn>>, m: nat, k: nat, n: nat, t: TurnId, i: ItemId)
    requires Chain(memories, events, raws) && m < k <= n <= |raws| && Stays(raws, m, n, t, i)
    requires forall j :: m <= j < n ==> TellsAt(raws, m, j, t, i)
    ensures HoldsAt(events, raws, k, t, i)
    decreases k
  {
    if k > m + 1 {
      FoldHolds(memories, events, raws, m, k - 1, n, t, i);
    }
    var j := k - 1;
    FoldStep(memories, events, raws, m, j, n, t, i);
    assert TellsAt(raws, m, j, t, i);
  }

  /** Main theorem: while an item stays, a reader that starts with nothing and folds its text events holds its
      latest text after every revision if and only if every revision tells it. */
  lemma {:induction false} FoldIsLatestTextExactly(memories: seq<Memory>, events: seq<seq<Event>>, raws: seq<seq<RawTurn>>, m: nat, n: nat, t: TurnId, i: ItemId)
    requires Chain(memories, events, raws) && m < n <= |raws| && Stays(raws, m, n, t, i)
    ensures (forall k :: m < k <= n ==> HoldsAt(events, raws, k, t, i)) <==> forall k :: m <= k < n ==> TellsAt(raws, m, k, t, i)
  {
    if forall k :: m < k <= n ==> HoldsAt(events, raws, k, t, i) {
      forall k | m <= k < n ensures TellsAt(raws, m, k, t, i) {
        FoldStep(memories, events, raws, m, k, n, t, i);
      }
    }
    if forall k :: m <= k < n ==> TellsAt(raws, m, k, t, i) {
      forall k | m < k <= n ensures HoldsAt(events, raws, k, t, i) {
        FoldHolds(memories, events, raws, m, k, n, t, i);
      }
    }
  }

  /** In particular for a message that is listed once, is not emptied, and is not first shown at rest. */
  lemma {:induction false} FoldIsLatestText(memories: seq<Memory>, events: seq<seq<Event>>, raws: seq<seq<RawTurn>>, m: nat, n: nat, t: TurnId, i: ItemId)
    requires Chain(memories, events, raws) && m < n <= |raws| && Stays(raws, m, n, t, i) && (m > 0 || SeenActive(raws[0], t))
    requires forall k :: m <= k < n ==> Once(raws[k], t, i) && IsMessage(ItemSighting(raws[k], t, i).value)
    requires forall k :: m <= k < n ==> ItemSighting(raws[k], t, i).value.text != "" || TextBefore(raws, m, k, t, i) == ""
    ensures HearAll("", events, n, t, i) == Prior(ItemSighting(raws[n - 1], t, i))
  {
    FoldIsLatestTextExactly(memories, events, raws, m, n, t, i);
    assert forall k :: m <= k < n ==> TellsAt(raws, m, k, t, i);
    assert HoldsAt(events, raws, n, t, i);
  }

  // ---- Instances ----

  const T := TurnId("t")
  const I := ItemId("i")

  function Say(text: string): Item {
    Item(I, "agentMessage", "", "", text)
  }

  function Raw(status: string, items: seq<Item>): seq<RawTurn> {
    [RawTurn(T, status, items, "")]
  }

  lemma SayFacts(text: string)
    ensures IsMessage(Say(text)) && !IsCompletedMessage(Say(text))
  {
    assert Text.Lower("agentMessage") == "agentmessage";
  }

  /** A state with one turn. */
  lemma {:induction false} ShowsOne(status: string, items: seq<Item>)
    ensures var turn := BuildTurn(RawTurn(T, status, items, ""));
            Shown(Raw(status, items)) == Window(map[T := turn], [T]) && Sighting(Raw(status, items), T) == Some(turn)
    ensures Count([T], T) == 1
  {
    var raws := Raw(status, items);
    assert raws[..0] == [] && Gather([]) == Window(map[], []);
    assert Gather(raws) == Window(map[T := BuildTurn(raws[0])], [] + [T]);
    assert [T][..0] == [];
  }

  lemma {:induction false} OneMoreItem(items: seq<Item>, item: Item)
    requires item.id != NO_ITEM
    ensures Indexed(items + [item]) == Indexed(items)[item.id := item]
    ensures Named(items + [item]) == Named(items) + [item.id]
  {
    assert (items + [item])[..|items|] == items;
  }

  /** A turn that lists one item once or twice. */
  lemma {:induction false} HoldsItem(item: Item)
    requires item.id == I
    ensures Indexed([item]) == map[I := item] && Count(Named([item]), I) == 1
    ensures Indexed([item, item]) == map[I := item] && Count(Named([item, item]), I) == 2
  {
    OneMoreItem([], item);
    assert [] + [item] == [item] && [] + [I] == [I];
    OneMoreItem([item], item);
    assert [item] + [item] == [item, item];
    CountTwice(I);
  }

  lemma {:induction false} CountTwice(i: ItemId)
    ensures Count([i], i) == 1 && Count([i] + [i], i) == 2
  {
    assert [i][..0] == [];
    CountConcat([i], [i], i);
  }

  /** What Hear says of a revision that does not tell. */
  lemma {:induction false} Untold(previous: Option<Memory>, raws: seq<RawTurn>, prior: string, item: Item)
    requires ItemSighting(raws, T, I) == Some(item) && Prior(PriorItem(Was(previous, T), I)) == prior
    requires !Tells(Audible(previous, raws, T), prior, item, Once(raws, T, I))
    ensures Hear(prior, Project(previous, raws).1, T, I) != item.text
  {
    ProjectReproducesExactly(previous, raws, T, I);
  }

  lemma {:induction false} RestingShows(item: Item)
    requires item.id == I && item.text != ""
    ensures var raws := Raw("completed", [item]);
            ItemSighting(raws, T, I) == Some(item) && !Tells(Audible(None, raws, T), "", item, Once(raws, T, I))
  {
    ShowsOne("completed", [item]);
    HoldsItem(item);
  }

  lemma {:induction false} RepeatedShows(item: Item)
    requires item.id == I && item.text != "" && !IsCompletedMessage(item)
    ensures var raws := Raw("active", [item, item]);
            ItemSighting(raws, T, I) == Some(item) && !Tells(Audible(None, raws, T), "", item, Once(raws, T, I))
  {
    ShowsOne("active", [item, item]);
    HoldsItem(item);
  }

  /** A message first shown at rest is never told. */
  lemma {:induction false} RestingBaselineIsSilent(raws: seq<RawTurn>, item: Item)
    requires raws == Raw("completed", [item]) && item == Say("abc")
    ensures Hear("", Project(None, raws).1, T, I) != item.text
  {
    RestingShows(item);
    Untold(None, raws, "", item);
  }

  /** A message listed twice is told twice. */
  lemma {:induction false} RepeatedIsDoubled(raws: seq<RawTurn>, item: Item)
    requires raws == Raw("active", [item, item]) && item == Say("abc")
    ensures Hear("", Project(None, raws).1, T, I) != item.text
  {
    SayFacts("abc");
    RepeatedShows(item);
    Untold(None, raws, "", item);
  }

  /** A message that becomes empty is not told. */
  lemma {:induction false} EmptiedIsNotTold(first: seq<RawTurn>, second: seq<RawTurn>, item: Item, empty: Item)
    requires first == Raw("active", [item]) && item == Say("abc") && second == Raw("active", [empty]) && empty == Say("")
    ensures Hear("abc", Project(Some(Project(None, first).0), second).1, T, I) != empty.text
  {
    ShowsOne("active", [item]);
    HoldsItem(item);
    ShowsOne("active", [empty]);
    HoldsItem(empty);
    var memory := Project(None, first).0;
    assert memory.window == Shown(first);
    Untold(Some(memory), second, "abc", empty);
  }
}
