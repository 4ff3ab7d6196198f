/** Successive states of a thread are diffed into started, item and terminal events; a small memory
    carries what a revision alone does not show (agent/codex_desktop_projection.go,
    agent/codex_desktop_projection_values.go). */
module Projection {
  import opened Json
  import Text

  datatype TurnId = TurnId(text: string)
  datatype ItemId = ItemId(text: string)

  const NO_TURN := TurnId("")
  const NO_ITEM := ItemId("")
  const MAX_TURNS: nat := 200

  datatype Item = Item(id: ItemId, itemType: string, status: string, phase: string, text: string)

  datatype Turn = Turn(id: TurnId, status: string, items: map<ItemId, Item>, order: seq<ItemId>, errorText: string)

  /** A turn as the thread state lists it; identifiers may be missing or repeated. */
  datatype RawTurn = RawTurn(id: TurnId, status: string, items: seq<Item>, errorText: string)

  datatype Event =
    | Started(turn: TurnId)
    | Activity(turn: TurnId, item: ItemId)
    | ItemCompleted(turn: TurnId, item: ItemId, phase: string, text: string)
    | Delta(turn: TurnId, item: ItemId, phase: string, delta: string)
    | Replaced(turn: TurnId, item: ItemId, phase: string, text: string)
    | Completed(turn: TurnId)
    | Error(turn: TurnId, text: string)

  /** What a later revision needs to know of the earlier ones: turns whose end was reported, turns seen to
      end before their answer arrived, and turns that vanished while active. */
  datatype Marks = Marks(terminal: set<TurnId>, candidates: set<TurnId>, tombstones: map<TurnId, Turn>)

  datatype Window = Window(turns: map<TurnId, Turn>, order: seq<TurnId>)

  datatype Memory = Memory(window: Window, marks: Marks)

  predicate ActiveStatus(status: string) {
    status == "inProgress" || status == "running" || status == "active" || status == "processing"
  }

  predicate TerminalStatus(status: string) {
    status == "completed" || status == "failed" || status == "interrupted" || status == "cancelled" || status == "canceled"
  }

  predicate Active(turn: Turn) { ActiveStatus(turn.status) }
  predicate Ended(turn: Turn) { TerminalStatus(turn.status) }

  // ---- Reading the state ----

  function Named(items: seq<Item>): (order: seq<ItemId>) {
    if items == [] then []
    else
      var n := |items| - 1;
      Named(items[..n]) + if items[n].id == NO_ITEM then [] else [items[n].id]
  }

  /** The last item of each name. */
  function Indexed(items: seq<Item>): (m: map<ItemId, Item>) {
    if items == [] then map[]
    else
      var n := |items| - 1;
      if items[n].id == NO_ITEM then Indexed(items[..n]) else Indexed(items[..n])[items[n].id := items[n]]
  }

  function BuildTurn(raw: RawTurn): Turn {
    Turn(raw.id, raw.status, Indexed(raw.items), Named(raw.items), raw.errorText)
  }

  function Gather(raws: seq<RawTurn>): (w: Window) {
    if raws == [] then Window(map[], [])
    else
      var n := |raws| - 1;
      var w := Gather(raws[..n]);
      if raws[n].id == NO_TURN then w
      else Window(w.turns[raws[n].id := BuildTurn(raws[n])], w.order + [raws[n].id])
  }

  // ---- Trimming ----

  function ActiveIds(turns: map<TurnId, Turn>, order: seq<TurnId>): set<TurnId> {
    set t | t in order && t in turns && Active(turns[t])
  }

  /** Adds the newest of the first `n` turns until the window is full. */
  function Fill(order: seq<TurnId>, n: nat, keep: set<TurnId>): set<TurnId>
    requires n <= |order|
  {
    if n == 0 || |keep| >= MAX_TURNS then keep else Fill(order, n - 1, keep + {order[n - 1]})
  }

  function Filter(order: seq<TurnId>, keep: set<TurnId>): (kept: seq<TurnId>) {
    if order == [] then []
    else
      var n := |order| - 1;
      Filter(order[..n], keep) + if order[n] in keep then [order[n]] else []
  }

  function Keep(w: Window): set<TurnId> {
    Fill(w.order, |w.order|, ActiveIds(w.turns, w.order))
  }

  function Trim(w: Window): Window {
    if |w.order| <= MAX_TURNS then w
    else Window(map t | t in w.turns && t in Keep(w) :: w.turns[t], Filter(w.order, Keep(w)))
  }

  /** The turns a revision shows. */
  function Shown(raws: seq<RawTurn>): Window {
    Trim(Gather(raws))
  }

  // ---- Memory ----

  /** The turn as the previous revisions left it. */
  function Was(previous: Option<Memory>, t: TurnId): Option<Turn> {
    if previous.None? then None
    else if t in previous.value.window.turns then Some(previous.value.window.turns[t])
    else if t in previous.value.marks.tombstones then Some(previous.value.marks.tombstones[t])
    else None
  }

  predicate WasActive(previous: Option<Memory>, t: TurnId) {
    Was(previous, t).Some? && Active(Was(previous, t).value)
  }

  predicate Vanished(before: map<TurnId, Turn>, turns: map<TurnId, Turn>, t: TurnId) {
    t in before && t !in turns && Active(before[t])
  }

  /** Turns that vanished while active, now or earlier. */
  function Buried(gone: map<TurnId, Turn>, before: map<TurnId, Turn>, turns: map<TurnId, Turn>): map<TurnId, Turn> {
    map t | t in gone.Keys + before.Keys && (t in gone || Vanished(before, turns, t))
      :: if Vanished(before, turns, t) then before[t] else gone[t]
  }

  /** Without those that are active again. */
  function Revived(gone: map<TurnId, Turn>, turns: map<TurnId, Turn>): map<TurnId, Turn> {
    map t | t in gone && !(t in turns && Active(turns[t])) :: gone[t]
  }

  function Carry(previous: Memory, turns: map<TurnId, Turn>): map<TurnId, Turn> {
    Revived(Buried(previous.marks.tombstones, previous.window.turns, turns), turns)
  }

  function Carried(previous: Option<Memory>, turns: map<TurnId, Turn>): Marks {
    if previous.None? then Marks({}, {}, map[])
    else Marks(previous.value.marks.terminal, previous.value.marks.candidates, Carry(previous.value, turns))
  }

  // ---- Events of one turn ----

  predicate IsMessage(item: Item) { Text.Lower(item.itemType) == "agentmessage" }
  predicate IsCommand(item: Item) { Text.Lower(item.itemType) == "commandexecution" }

  predicate IsFinalAnswer(item: Item) {
    IsMessage(item) && Text.Trim(item.text) != "" && (Text.Lower(Text.Trim(item.phase)) == "final_answer" || Text.Lower(Text.Trim(item.phase)) == "")
  }

  predicate HasFinalAnswer(turn: Turn) {
    exists i :: 0 <= i < |turn.order| && turn.order[i] in turn.items && IsFinalAnswer(turn.items[turn.order[i]])
  }

  predicate Ready(turn: Turn) {
    turn.status == "completed" ==> HasFinalAnswer(turn)
  }

  predicate IsCompletedMessage(item: Item) {
    var status := Text.Lower(Text.Trim(item.status));
    status == "completed" || (status == "" && (Text.Lower(Text.Trim(item.phase)) == "commentary" || Text.Lower(Text.Trim(item.phase)) == "final_answer"))
  }

  predicate HasPrefix(s: string, p: string) {
    |p| <= |s| && s[..|p|] == p
  }

  function TextEvents(t: TurnId, prior: Option<Item>, item: Item): seq<Event> {
    var priorText := if prior.Some? then prior.value.text else "";
    if item.text == "" then []
    else if IsCompletedMessage(item) && (prior.None? || !IsCompletedMessage(prior.value) || priorText != item.text || prior.value.phase != item.phase)
    then [ItemCompleted(t, item.id, item.phase, item.text)]
    else if prior.Some? && priorText == item.text then []
    else if HasPrefix(item.text, priorText) then [Delta(t, item.id, item.phase, item.text[|priorText|..])]
    else [Replaced(t, item.id, item.phase, item.text)]
  }

  function ItemEvents(t: TurnId, prior: Option<Item>, item: Item): seq<Event> {
    if IsMessage(item) then TextEvents(t, prior, item)
    else if IsCommand(item) && (prior.None? || prior.value.status != item.status) then [Activity(t, item.id)]
    else []
  }

  function PriorItem(was: Option<Turn>, i: ItemId): Option<Item> {
    if was.Some? && i in was.value.items then Some(was.value.items[i]) else None
  }

  /** The diff of the first `n` items. */
  function Diff(t: TurnId, was: Option<Turn>, turn: Turn, n: nat): (events: seq<Event>)
    requires n <= |turn.order|
  {
    if n == 0 then []
    else
      var i := turn.order[n - 1];
      Diff(t, was, turn, n - 1) + if i in turn.items then ItemEvents(t, PriorItem(was, i), turn.items[i]) else []
  }

  /** What the memory says of one turn. */
  datatype Cell = Cell(terminal: bool, candidate: bool, tombstone: bool)

  predicate Reports(baseline: bool, wasActive: bool, turn: Turn, c: Cell) {
    Ended(turn) && !baseline && !c.terminal && Ready(turn) && (wasActive || c.candidate)
  }

  function VisitCell(baseline: bool, wasActive: bool, turn: Turn, c: Cell): Cell {
    if !Ended(turn) then c.(candidate := false)
    else if baseline then Cell(true, false, c.tombstone)
    else if Reports(baseline, wasActive, turn, c) then Cell(true, false, false)
    else if !c.terminal && wasActive then Cell(false, true, false)
    else c.(tombstone := false)
  }

  function TerminalEvent(turn: Turn): Event {
    if turn.status == "completed" then Completed(turn.id)
    else Error(turn.id, if turn.errorText != "" then turn.errorText else "Codex turn 已" + turn.status)
  }

  function TurnEvents(baseline: bool, was: Option<Turn>, t: TurnId, turn: Turn, c: Cell): seq<Event> {
    var wasActive := was.Some? && Active(was.value);
    (if Active(turn) && !wasActive then [Started(t)] else [])
    + (if !baseline || Active(turn) then Diff(t, was, turn, |turn.order|) else [])
    + (if Reports(baseline, wasActive, turn, c) then [TerminalEvent(turn)] else [])
  }

  // ---- One projection ----

  function CellOf(m: Marks, t: TurnId): Cell {
    Cell(t in m.terminal, t in m.candidates, t in m.tombstones)
  }

  function Member(s: set<TurnId>, t: TurnId, present: bool): set<TurnId> {
    if present then s + {t} else s - {t}
  }

  function SetCell(m: Marks, t: TurnId, c: Cell): Marks {
    Marks(Member(m.terminal, t, c.terminal), Member(m.candidates, t, c.candidate),
          if c.tombstone then m.tombstones else m.tombstones - {t})
  }

  datatype Progress = Progress(marks: Marks, events: seq<Event>)

  function Visit(previous: Option<Memory>, w: Window, t: TurnId, p: Progress): Progress
    requires t in w.turns
  {
    var c := CellOf(p.marks, t);
    Progress(SetCell(p.marks, t, VisitCell(previous.None?, WasActive(previous, t), w.turns[t], c)),
             p.events + TurnEvents(previous.None?, Was(previous, t), t, w.turns[t], c))
  }

  /** The first `n` turns of the window. */
  function Pass(previous: Option<Memory>, w: Window, n: nat): (p: Progress)
    requires n <= |w.order|
  {
    if n == 0 then Progress(Carried(previous, w.turns), [])
    else
      var p := Pass(previous, w, n - 1);
      if w.order[n - 1] in w.turns then Visit(previous, w, w.order[n - 1], p) else p
  }

  function Project(previous: Option<Memory>, raws: seq<RawTurn>): (Memory, seq<Event>) {
    var w := Shown(raws);
    var p := Pass(previous, w, |w.order|);
    (Memory(w, p.marks), p.events)
  }
}
