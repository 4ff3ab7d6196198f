/** The projection said of what a thread state lists: which of the listed turns a revision shows, what it shows
    of them, and when their start and end are reported. */
module ListedTurns {
  import opened Json
  import opened Projection
  import opened ProjectionChains
  import opened ProjectionTrim
  import Text

  // ---- Listings ----

  predicate Running(status: string) {
    status in {"inProgress", "running", "active", "processing"}
  }

  predicate Over(status: string) {
    status in {"completed", "failed", "interrupted", "cancelled", "canceled"}
  }

  /** Listing `i` is the last one of turn `t`. */
  ghost predicate LastOf(raws: seq<RawTurn>, i: int, t: TurnId) {
    0 <= i < |raws| && raws[i].id == t && forall j :: i < j < |raws| ==> raws[j].id != t
  }

  ghost predicate LastItem(items: seq<Item>, i: int, id: ItemId) {
    0 <= i < |items| && items[i].id == id && forall j :: i < j < |items| ==> items[j].id != id
  }

  function TurnIds(raws: seq<RawTurn>): (ids: seq<TurnId>) {
    seq(|raws|, i requires 0 <= i < |raws| => raws[i].id)
  }

  function ItemIds(items: seq<Item>): (ids: seq<ItemId>) {
    seq(|items|, i requires 0 <= i < |items| => items[i].id)
  }

  /** `order` is the identifiers other than `none`, in listing order; `picks` says which listings they are. */
  ghost predicate Lists<T(!new)>(ids: seq<T>, none: T, order: seq<T>, picks: seq<nat>) {
    && |picks| == |order|
    && (forall j, k :: 0 <= j < k < |picks| ==> picks[j] < picks[k])
    && (forall k :: 0 <= k < |picks| ==> picks[k] < |ids| && order[k] == ids[picks[k]] != none)
    && (forall i :: 0 <= i < |ids| && ids[i] != none ==> i in picks)
  }

  /** One more listing. */
  lemma {:induction false} ListsMore<T(!new)>(ids: seq<T>, none: T, order: seq<T>, picks: seq<nat>, id: T) returns (more: seq<nat>)
    requires Lists(ids, none, order, picks)
    ensures Lists(ids + [id], none, if id == none then order else order + [id], more)
  {
    more := if id == none then picks else picks + [|ids|];
    forall i | 0 <= i < |ids + [id]| && (ids + [id])[i] != none ensures i in more {
      if i == |ids| {
        assert more[|more| - 1] == i;
      } else {
        assert i in picks;
      }
    }
  }

  /** How many listings have a name. */
  function NamedListings(raws: seq<RawTurn>): (n: nat) {
    if raws == [] then 0
    else NamedListings(raws[..|raws| - 1]) + if raws[|raws| - 1].id == NO_TURN then 0 else 1
  }

  // ---- The items of a turn ----

  lemma {:induction false} NamedLists(items: seq<Item>) returns (picks: seq<nat>)
    ensures Lists(ItemIds(items), NO_ITEM, Named(items), picks)
  {
    if items == [] {
      picks := [];
    } else {
      var n := |items| - 1;
      var less := NamedLists(items[..n]);
      picks := ListsMore(ItemIds(items[..n]), NO_ITEM, Named(items[..n]), less, items[n].id);
      ItemIdsMore(items);
      assert Named(items) == if items[n].id == NO_ITEM then Named(items[..n]) else Named(items[..n]) + [items[n].id];
    }
  }

  lemma {:induction false} ItemIdsMore(items: seq<Item>)
    requires items != []
    ensures ItemIds(items) == ItemIds(items[..|items| - 1]) + [items[|items| - 1].id]
  {
  }

  lemma {:induction false} IndexedLast(items: seq<Item>, id: ItemId)
    ensures id in Indexed(items) <==> id != NO_ITEM && exists i :: LastItem(items, i, id)
    ensures forall i :: LastItem(items, i, id) && id != NO_ITEM ==> Indexed(items)[id] == items[i]
  {
    if items != [] {
      var n := |items| - 1;
      IndexedLast(items[..n], id);
      if items[n].id == id {
        assert LastItem(items, n, id);
      }
      forall i | LastItem(items[..n], i, id) && items[n].id != id ensures LastItem(items, i, id) {
      }
      forall i | LastItem(items, i, id) && items[n].id != id ensures LastItem(items[..n], i, id) {
      }
    }
  }

  /** The turn is what the listing says: its status and error text, each named item as it was listed last, and
      the named items in listing order. */
  ghost predicate TurnShows(turn: Turn, raw: RawTurn) {
    && turn.id == raw.id && turn.status == raw.status && turn.errorText == raw.errorText
    && (exists picks :: Lists(ItemIds(raw.items), NO_ITEM, turn.order, picks))
    && (forall id :: id in turn.items <==> id != NO_ITEM && exists i :: LastItem(raw.items, i, id))
    && (forall id, i :: LastItem(raw.items, i, id) && id != NO_ITEM ==> turn.items[id] == raw.items[i])
  }

  lemma {:induction false} BuildShows(raw: RawTurn)
    ensures TurnShows(BuildTurn(raw), raw)
  {
    var picks := NamedLists(raw.items);
    forall id
      ensures id in Indexed(raw.items) <==> id != NO_ITEM && exists i :: LastItem(raw.items, i, id)
      ensures forall i :: LastItem(raw.items, i, id) && id != NO_ITEM ==> Indexed(raw.items)[id] == raw.items[i]
    {
      IndexedLast(raw.items, id);
    }
  }

  // ---- The turns of a thread ----

  lemma {:induction false} GatherLists(raws: seq<RawTurn>) returns (picks: seq<nat>)
    ensures Lists(TurnIds(raws), NO_TURN, Gather(raws).order, picks) && |picks| == NamedListings(raws)
  {
    if raws == [] {
      picks := [];
    } else {
      var n := |raws| - 1;
      var less := GatherLists(raws[..n]);
      picks := ListsMore(TurnIds(raws[..n]), NO_TURN, Gather(raws[..n]).order, less, raws[n].id);
      TurnIdsMore(raws);
    }
  }

  lemma {:induction false} TurnIdsMore(raws: seq<RawTurn>)
    requires raws != []
    ensures TurnIds(raws) == TurnIds(raws[..|raws| - 1]) + [raws[|raws| - 1].id]
  {
  }

  lemma {:induction false} GatherLast(raws: seq<RawTurn>, t: TurnId)
    ensures t in Gather(raws).turns <==> t != NO_TURN && exists i :: LastOf(raws, i, t)
    ensures forall i :: LastOf(raws, i, t) && t != NO_TURN ==> TurnShows(Gather(raws).turns[t], raws[i])
  {
    if raws != [] {
      var n := |raws| - 1;
      GatherLast(raws[..n], t);
      BuildShows(raws[n]);
      if raws[n].id == t {
        assert LastOf(raws, n, t);
      }
      forall i | LastOf(raws[..n], i, t) && raws[n].id != t ensures LastOf(raws, i, t) {
      }
      forall i | LastOf(raws, i, t) && raws[n].id != t ensures LastOf(raws[..n], i, t) {
      }
    }
  }

  lemma {:induction false} GatherCounts(raws: seq<RawTurn>, t: TurnId)
    requires t != NO_TURN
    ensures Count(Gather(raws).order, t) == Count(TurnIds(raws), t)
  {
    if raws != [] {
      var n := |raws| - 1;
      GatherCounts(raws[..n], t);
      assert TurnIds(raws)[..n] == TurnIds(raws[..n]);
    }
  }

  lemma {:induction false} LastExists(raws: seq<RawTurn>, t: TurnId)
    ensures t in TurnIds(raws) <==> exists i :: LastOf(raws, i, t)
  {
    if raws != [] {
      var n := |raws| - 1;
      LastExists(raws[..n], t);
      assert TurnIds(raws) == TurnIds(raws[..n]) + [raws[n].id];
      if raws[n].id == t {
        assert LastOf(raws, n, t);
      } else if i :| LastOf(raws[..n], i, t) {
        assert LastOf(raws, i, t);
      }
      if i :| LastOf(raws, i, t) {
        assert TurnIds(raws)[i] == t;
      }
    }
  }

  /** Main theorem on reading a revision, first part: its window lists named turns in listing order, and all of
      them if they are at most 200. */
  lemma {:induction false} WindowLists(previous: Option<Memory>, raws: seq<RawTurn>) returns (picks: seq<nat>)
    ensures var order := Project(previous, raws).0.window.order;
            && |picks| == |order| && (forall j, k :: 0 <= j < k < |picks| ==> picks[j] < picks[k])
            && (forall k :: 0 <= k < |picks| ==> picks[k] < |raws| && order[k] == TurnIds(raws)[picks[k]] != NO_TURN)
            && (NamedListings(raws) <= 200 ==> Lists(TurnIds(raws), NO_TURN, order, picks))
  {
    var all := GatherLists(raws);
    if NamedListings(raws) <= 200 {
      picks := all;
    } else {
      GatherConsistent(raws);
      var kept := TrimKeeps(Gather(raws));
      picks := PicksOfPicks(TurnIds(raws), NO_TURN, Gather(raws).order, all, Shown(raws).order, kept);
    }
  }

  /** A selection from what is listed is a selection from the listings. */
  lemma {:induction false} PicksOfPicks(ids: seq<TurnId>, none: TurnId, order: seq<TurnId>, all: seq<nat>, part: seq<TurnId>, kept: seq<nat>)
    returns (picks: seq<nat>)
    requires Lists(ids, none, order, all) && Selects(order, part, kept)
    ensures |picks| == |part| && (forall j, k :: 0 <= j < k < |picks| ==> picks[j] < picks[k])
    ensures forall k :: 0 <= k < |picks| ==> picks[k] < |ids| && part[k] == ids[picks[k]] != none
  {
    picks := seq(|kept|, k requires 0 <= k < |kept| => all[kept[k]]);
  }

  /** Second part: a turn of the window is what its last listing says; with at most 200 named turns each listed
      turn is in the window, and one that runs always is. */
  lemma {:induction false} WindowShows(previous: Option<Memory>, raws: seq<RawTurn>, t: TurnId)
    ensures var w := Project(previous, raws).0.window;
            && (t in w.order <==> t in w.turns)
            && (t in w.turns ==> t != NO_TURN && exists i :: LastOf(raws, i, t))
            && (forall i :: t in w.turns && LastOf(raws, i, t) ==> TurnShows(w.turns[t], raws[i]))
            && (forall i :: LastOf(raws, i, t) && t != NO_TURN && (NamedListings(raws) <= 200 || Running(raws[i].status)) ==> t in w.turns)
  {
    var g := Gather(raws);
    GatherLast(raws, t);
    GatherConsistent(raws);
    ShownConsistent(raws);
    var _ := TrimKeeps(g);
    var all := GatherLists(raws);
    assert NamedListings(raws) <= 200 ==> Shown(raws) == g;
  }

  /** The same of what chains call a sighting. */
  lemma {:induction false} SightedExactly(raws: seq<RawTurn>, t: TurnId)
    ensures Sighting(raws, t).Some? ==> t != NO_TURN && t in TurnIds(raws)
    ensures NamedListings(raws) <= 200 ==> (Sighting(raws, t).Some? <==> t != NO_TURN && t in TurnIds(raws))
    ensures forall i :: LastOf(raws, i, t) && Sighting(raws, t).Some? ==> TurnShows(Sighting(raws, t).value, raws[i])
    ensures forall i :: LastOf(raws, i, t) && t != NO_TURN && Running(raws[i].status) ==> Sighting(raws, t).Some?
  {
    WindowShows(None, raws, t);
    LastExists(raws, t);
  }

  // ---- Starts ----

  /** The turn is listed and, where it is listed last, it runs. */
  ghost predicate ListedRunning(raws: seq<RawTurn>, t: TurnId) {
    t != NO_TURN && exists i :: LastOf(raws, i, t) && Running(raws[i].status)
  }

  lemma {:induction false} SeenActiveExactly(raws: seq<RawTurn>, t: TurnId)
    ensures SeenActive(raws, t) <==> ListedRunning(raws, t)
  {
    SightedExactly(raws, t);
    LastExists(raws, t);
    if i :| LastOf(raws, i, t) {
      forall j | LastOf(raws, j, t) ensures i == j {
      }
    }
  }

  /** The start of a turn is reported exactly if it is listed as running and was not remembered so; with at most
      200 named turns once for each time it is listed. */
  lemma {:induction false} StartReportedExactly(previous: Option<Memory>, raws: seq<RawTurn>, t: TurnId)
    ensures Started(t) in Project(previous, raws).1 <==> ListedRunning(raws, t) && !WasActive(previous, t)
    ensures NamedListings(raws) <= 200 ==>
              Count(Project(previous, raws).1, Started(t)) ==
                if ListedRunning(raws, t) && !WasActive(previous, t) then Count(TurnIds(raws), t) else 0
  {
    var w := Shown(raws);
    StartedExactly(previous, raws, t);
    SeenActiveExactly(raws, t);
    ShownConsistent(raws);
    CountAbsent(Project(previous, raws).1, Started(t));
    CountAbsent(w.order, t);
    if ListedRunning(raws, t) && NamedListings(raws) <= 200 {
      var picks := GatherLists(raws);
      GatherCounts(raws, t);
    }
  }

  /** In a chain: a turn that no earlier revision listed is reported as started when it is listed as running. */
  lemma {:induction false} NewTurnStarts(memories: seq<Memory>, events: seq<seq<Event>>, raws: seq<seq<RawTurn>>, n: nat, t: TurnId)
    requires Chain(memories, events, raws) && n < |raws| && ListedRunning(raws[n], t)
    requires forall j :: 0 <= j < n ==> t !in TurnIds(raws[j])
    ensures Started(t) in events[n]
  {
    assert Link(memories, events, raws, n);
    NeverSeen(memories, events, raws, n, t);
    StartReportedExactly(Before(memories, n), raws[n], t);
  }

  lemma {:induction false} NeverSeen(memories: seq<Memory>, events: seq<seq<Event>>, raws: seq<seq<RawTurn>>, n: nat, t: TurnId)
    requires Chain(memories, events, raws) && n <= |raws|
    requires forall j :: 0 <= j < n ==> t !in TurnIds(raws[j])
    ensures !WasActive(Before(memories, n), t)
  {
    MemoryMeansActive(memories, events, raws, n, t);
    if EverActive(raws, n, t) {
      var m :| 0 <= m < n && SeenActive(raws[m], t);
      SightedExactly(raws[m], t);
    }
  }

  /** One that runs on is not reported again, and a turn that does not run is never reported as started. */
  lemma {:induction false} RunningOnIsSilent(memories: seq<Memory>, events: seq<seq<Event>>, raws: seq<seq<RawTurn>>, n: nat, t: TurnId)
    requires Chain(memories, events, raws) && n < |raws|
    requires !ListedRunning(raws[n], t) || (n > 0 && ListedRunning(raws[n - 1], t))
    ensures Started(t) !in events[n]
  {
    assert Link(memories, events, raws, n);
    StartReportedExactly(Before(memories, n), raws[n], t);
    if n > 0 && ListedRunning(raws[n - 1], t) {
      assert Link(memories, events, raws, n - 1);
      SeenActiveExactly(raws[n - 1], t);
      PresentStep(Before(memories, n - 1), raws[n - 1], t);
    }
  }

  // ---- Ends ----

  /** An assistant's message with text that closes a turn. */
  predicate Answers(item: Item) {
    && Text.Lower(item.itemType) == "agentmessage" && Text.Trim(item.text) != ""
    && (Text.Lower(Text.Trim(item.phase)) == "final_answer" || Text.Lower(Text.Trim(item.phase)) == "")
  }

  /** The listing holds a final answer: some named item, as it is listed last. */
  ghost predicate Answered(raw: RawTurn) {
    exists i, id :: LastItem(raw.items, i, id) && id != NO_ITEM && Answers(raw.items[i])
  }

  lemma {:induction false} AnsweredExactly(turn: Turn, raw: RawTurn)
    requires TurnShows(turn, raw)
    ensures HasFinalAnswer(turn) <==> Answered(raw)
  {
    if k :| 0 <= k < |turn.order| && turn.order[k] in turn.items && IsFinalAnswer(turn.items[turn.order[k]]) {
      FinalAnswerListed(turn, raw, turn.order[k]);
    }
    if i, id :| LastItem(raw.items, i, id) && id != NO_ITEM && Answers(raw.items[i]) {
      ItemIsOrdered(turn, raw, i);
      var k :| 0 <= k < |turn.order| && turn.order[k] == id;
      assert IsFinalAnswer(turn.items[turn.order[k]]);
    }
  }

  lemma {:induction false} FinalAnswerListed(turn: Turn, raw: RawTurn, id: ItemId)
    requires TurnShows(turn, raw) && id in turn.items && IsFinalAnswer(turn.items[id])
    ensures Answered(raw)
  {
    var i :| LastItem(raw.items, i, id);
    assert Answers(raw.items[i]);
  }

  lemma {:induction false} ItemIsOrdered(turn: Turn, raw: RawTurn, i: nat)
    requires TurnShows(turn, raw) && i < |raw.items| && raw.items[i].id != NO_ITEM
    ensures raw.items[i].id in turn.order
  {
    var picks :| Lists(ItemIds(raw.items), NO_ITEM, turn.order, picks);
    assert ItemIds(raw.items)[i] == raw.items[i].id;
    Listed(ItemIds(raw.items), NO_ITEM, turn.order, picks, i);
  }

  lemma {:induction false} Listed<T(!new)>(ids: seq<T>, none: T, order: seq<T>, picks: seq<nat>, i: nat)
    requires Lists(ids, none, order, picks) && i < |ids| && ids[i] != none
    ensures ids[i] in order
  {
    var k :| 0 <= k < |picks| && picks[k] == i;
    assert order[k] == ids[i];
  }

  /** The listing says that the turn is over, and if completed also how it was answered. */
  ghost predicate Concluded(raw: RawTurn) {
    Over(raw.status) && (raw.status == "completed" ==> Answered(raw))
  }

  /** The revision lists the turn as running, not at all, or as completed without an answer. */
  ghost predicate ListedUnfinished(raws: seq<RawTurn>, t: TurnId) {
    forall i :: LastOf(raws, i, t) ==> Running(raws[i].status) || (Over(raws[i].status) && !Concluded(raws[i]))
  }

  lemma {:induction false} UnfinishedAsListed(raws: seq<RawTurn>, t: TurnId)
    requires ListedUnfinished(raws, t)
    ensures Unfinished(raws, t)
  {
    SightedExactly(raws, t);
    LastExists(raws, t);
    if Sighting(raws, t).Some? {
      var i :| LastOf(raws, i, t);
      AnsweredExactly(Sighting(raws, t).value, raws[i]);
    }
  }

  /** What the end of a turn is reported as. */
  function EndOf(raw: RawTurn): Event {
    if raw.status == "completed" then Completed(raw.id)
    else Error(raw.id, if raw.errorText != "" then raw.errorText else "Codex turn 已" + raw.status)
  }

  lemma {:induction false} EndSays(previous: Option<Memory>, raws: seq<RawTurn>, t: TurnId, i: int)
    requires LastOf(raws, i, t) && Ends(Project(previous, raws).1, t) > 0
    ensures EndOf(raws[i]) in Project(previous, raws).1
  {
    var events := Project(previous, raws).1;
    var e := AnEnd(events, t);
    EndsAreTruthful(previous, raws, e);
    SightedExactly(raws, t);
  }

  lemma {:induction false} AnEnd(events: seq<Event>, t: TurnId) returns (e: Event)
    requires Ends(events, t) > 0
    ensures e in events && IsEnd(e) && e.turn == t
  {
    var n := |events| - 1;
    if IsEnd(events[n]) && events[n].turn == t {
      e := events[n];
    } else {
      e := AnEnd(events[..n], t);
      assert e in events[..n];
    }
  }

  /** Main theorem on listed turns: a turn whose first listing in a chain runs, and that from then on is listed as
      running, not at all, or as completed without an answer, is reported as ended exactly once, at the first
      revision that lists it as concluded, and as what that listing says.  (That revision lists at most 200
      named turns; a finished turn behind 200 newer ones may not be seen.) */
  lemma {:induction false} EndReportedOnce(memories: seq<Memory>, events: seq<seq<Event>>, raws: seq<seq<RawTurn>>,
                                           m: nat, k: nat, n: nat, t: TurnId, i: int)
    requires Chain(memories, events, raws) && m < k < n <= |raws| && t != NO_TURN
    requires forall j :: 0 <= j < m ==> t !in TurnIds(raws[j])
    requires ListedRunning(raws[m], t)
    requires forall j :: m < j < k ==> ListedUnfinished(raws[j], t)
    requires LastOf(raws[k], i, t) && Concluded(raws[k][i]) && NamedListings(raws[k]) <= 200
    ensures ProjectionChains.Total(events, k, t) == 0 && ProjectionChains.Total(events, n, t) == 1
    ensures EndOf(raws[k][i]) in events[k] && EndOf(raws[k][i]).turn == t
  {
    forall j | 0 <= j < m ensures Sighting(raws[j], t).None? {
      SightedExactly(raws[j], t);
    }
    SeenActiveExactly(raws[m], t);
    forall j | m < j < k ensures Unfinished(raws[j], t) {
      UnfinishedAsListed(raws[j], t);
    }
    SightedExactly(raws[k], t);
    LastExists(raws[k], t);
    AnsweredExactly(Sighting(raws[k], t).value, raws[k][i]);
    ExactlyOneEnd(memories, events, raws, m, k, n, t);
    assert Link(memories, events, raws, k);
    EndSays(Before(memories, k), raws[k], t, i);
  }
}
