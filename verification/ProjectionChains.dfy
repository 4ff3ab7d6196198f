/** What a whole chain of projections of one thread reports about one turn. */
module ProjectionChains {
  import opened Json
  import opened Projection

  // ---- Windows are consistent ----

  ghost predicate ConsistentTurn(turn: Turn) {
    && (forall i :: i in turn.order <==> i in turn.items)
    && (forall i :: i in turn.items ==> turn.items[i].id == i)
  }

  ghost predicate Consistent(w: Window) {
    && (forall t :: t in w.order <==> t in w.turns)
    && (forall t :: t in w.turns ==> w.turns[t].id == t && ConsistentTurn(w.turns[t]))
  }

  lemma {:induction false} IndexedMatches(items: seq<Item>, i: ItemId)
    ensures i in Named(items) <==> i in Indexed(items)
    ensures i in Indexed(items) ==> Indexed(items)[i].id == i
  {
    if items != [] {
      IndexedMatches(items[..|items| - 1], i);
    }
  }

  lemma {:induction false} BuildConsistent(raw: RawTurn)
    ensures ConsistentTurn(BuildTurn(raw))
  {
    forall i
      ensures i in Named(raw.items) <==> i in Indexed(raw.items)
      ensures i in Indexed(raw.items) ==> Indexed(raw.items)[i].id == i
    {
      IndexedMatches(raw.items, i);
    }
  }

  lemma {:induction false} GatherConsistent(raws: seq<RawTurn>)
    ensures Consistent(Gather(raws))
  {
    if raws != [] {
      GatherConsistent(raws[..|raws| - 1]);
      BuildConsistent(raws[|raws| - 1]);
    }
  }

  lemma {:induction false} FilterMembers(order: seq<TurnId>, keep: set<TurnId>, t: TurnId)
    ensures t in Filter(order, keep) <==> t in order && t in keep
  {
    if order != [] {
      var n := |order| - 1;
      FilterMembers(order[..n], keep, t);
      assert order == order[..n] + [order[n]];
    }
  }

  lemma {:induction false} ShownConsistent(raws: seq<RawTurn>)
    ensures Consistent(Shown(raws))
  {
    var w := Gather(raws);
    GatherConsistent(raws);
    forall t ensures t in Filter(w.order, Keep(w)) <==> t in w.order && t in Keep(w) {
      FilterMembers(w.order, Keep(w), t);
    }
  }

  // ---- Counting ----

  function Count<T(==)>(s: seq<T>, x: T): nat {
    if s == [] then 0 else Count(s[..|s| - 1], x) + if s[|s| - 1] == x then 1 else 0
  }

  lemma {:induction false} CountAbsent<T>(s: seq<T>, x: T)
    ensures Count(s, x) == 0 <==> x !in s
  {
    if s != [] {
      CountAbsent(s[..|s| - 1], x);
      assert s == s[..|s| - 1] + [s[|s| - 1]];
    }
  }

  lemma {:induction false} CountConcat<T>(a: seq<T>, b: seq<T>, x: T)
    ensures Count(a + b, x) == Count(a, x) + Count(b, x)
    decreases |b|
  {
    if b == [] {
      assert a + b == a;
    } else {
      var n := |b| - 1;
      assert (a + b)[..|a + b| - 1] == a + b[..n];
      CountConcat(a, b[..n], x);
    }
  }

  predicate IsEnd(e: Event) { e.Completed? || e.Error? }

  /** How many terminal events of the turn there are. */
  function Ends(events: seq<Event>, t: TurnId): nat {
    if events == [] then 0
    else
      var n := |events| - 1;
      Ends(events[..n], t) + if IsEnd(events[n]) && events[n].turn == t then 1 else 0
  }

  lemma {:induction false} EndsConcat(a: seq<Event>, b: seq<Event>, t: TurnId)
    ensures Ends(a + b, t) == Ends(a, t) + Ends(b, t)
    decreases |b|
  {
    if b == [] {
      assert a + b == a;
    } else {
      var n := |b| - 1;
      assert (a + b)[..|a + b| - 1] == a + b[..n];
      EndsConcat(a, b[..n], t);
    }
  }

  lemma {:induction false} NoEnds(events: seq<Event>, t: TurnId)
    requires forall e :: e in events ==> !IsEnd(e)
    ensures Ends(events, t) == 0
  {
    if events != [] {
      NoEnds(events[..|events| - 1], t);
    }
  }

  lemma {:induction false} DiffNoEnds(t: TurnId, was: Option<Turn>, turn: Turn, n: nat)
    requires n <= |turn.order|
    ensures forall e :: e in Diff(t, was, turn, n) ==> !IsEnd(e) && e.turn == t
  {
    if n > 0 {
      DiffNoEnds(t, was, turn, n - 1);
    }
  }

  /** Ends come last in the events of a turn, if at all. */
  lemma {:induction false} EndsLast(a: seq<Event>, b: seq<Event>, end: seq<Event>, t: TurnId)
    requires (forall e :: e in a ==> !IsEnd(e)) && (forall e :: e in b ==> !IsEnd(e))
    requires |end| <= 1 && (end != [] ==> IsEnd(end[0]))
    ensures Ends(a + b + end, t) == if end != [] && end[0].turn == t then 1 else 0
  {
    NoEnds(a, t);
    NoEnds(b, t);
    EndsConcat(a, b, t);
    EndsConcat(a + b, end, t);
    if end != [] {
      assert end[..0] == [] && Ends([], t) == 0;
    }
  }

  lemma {:induction false} TurnEventsEnds(baseline: bool, was: Option<Turn>, u: TurnId, turn: Turn, c: Cell, t: TurnId)
    requires turn.id == u
    ensures var wasActive := was.Some? && Active(was.value);
            Ends(TurnEvents(baseline, was, u, turn, c), t) == if u == t && Reports(baseline, wasActive, turn, c) then 1 else 0
  {
    var wasActive := was.Some? && Active(was.value);
    var started := if Active(turn) && !wasActive then [Started(u)] else [];
    var diff := if !baseline || Active(turn) then Diff(u, was, turn, |turn.order|) else [];
    var end := if Reports(baseline, wasActive, turn, c) then [TerminalEvent(turn)] else [];
    DiffNoEnds(u, was, turn, |turn.order|);
    EndsLast(started, diff, end, t);
  }

  // ---- One turn in one projection ----

  /** A second visit of a repeated identifier changes nothing in the memory and ends nothing again. */
  lemma {:induction false} VisitTwice(baseline: bool, wasActive: bool, turn: Turn, c: Cell)
    ensures var d := VisitCell(baseline, wasActive, turn, c);
            VisitCell(baseline, wasActive, turn, d) == d && !Reports(baseline, wasActive, turn, d)
  {
  }

  lemma {:induction false} SetCellSets(m: Marks, t: TurnId, c: Cell, u: TurnId)
    requires c.tombstone ==> t in m.tombstones
    ensures CellOf(SetCell(m, t, c), u) == if u == t then c else CellOf(m, u)
  {
  }

  lemma {:induction false} VisitCellTombstone(baseline: bool, wasActive: bool, turn: Turn, c: Cell)
    ensures VisitCell(baseline, wasActive, turn, c).tombstone ==> c.tombstone
  {
  }

  lemma {:induction false} VisitEffect(previous: Option<Memory>, w: Window, u: TurnId, p: Progress, t: TurnId)
    requires u in w.turns && w.turns[u].id == u
    ensures var q := Visit(previous, w, u, p);
            && CellOf(q.marks, t) == (if u == t then VisitCell(previous.None?, WasActive(previous, t), w.turns[t], CellOf(p.marks, t))
                                      else CellOf(p.marks, t))
            && Ends(q.events, t) == Ends(p.events, t)
                 + if u == t && Reports(previous.None?, WasActive(previous, t), w.turns[t], CellOf(p.marks, t)) then 1 else 0
  {
    var c := CellOf(p.marks, u);
    VisitCellTombstone(previous.None?, WasActive(previous, u), w.turns[u], c);
    SetCellSets(p.marks, u, VisitCell(previous.None?, WasActive(previous, u), w.turns[u], c), t);
    TurnEventsEnds(previous.None?, Was(previous, u), u, w.turns[u], c, t);
    EndsConcat(p.events, TurnEvents(previous.None?, Was(previous, u), u, w.turns[u], c), t);
  }

  /** The progress after each turn of a pass. */
  ghost predicate Trail(previous: Option<Memory>, w: Window, ps: seq<Progress>) {
    && |ps| == |w.order| + 1 && ps[0].events == []
    && forall n :: 0 <= n < |w.order| ==> Visits(previous, w, ps, n)
  }

  ghost predicate Visits(previous: Option<Memory>, w: Window, ps: seq<Progress>, n: nat)
    requires n < |w.order| == |ps| - 1
  {
    w.order[n] in w.turns && ps[n + 1] == Visit(previous, w, w.order[n], ps[n])
  }

  lemma {:induction false} PassTrail(previous: Option<Memory>, w: Window) returns (ps: seq<Progress>)
    requires Consistent(w)
    ensures Trail(previous, w, ps) && ps[|w.order|] == Pass(previous, w, |w.order|)
  {
    ps := PassesTrail(previous, w);
  }

  lemma {:induction false} PassesTrail(previous: Option<Memory>, w: Window) returns (ps: seq<Progress>)
    requires Consistent(w)
    ensures Trail(previous, w, ps) && ps[0] == Progress(Carried(previous, w.turns), [])
    ensures forall n :: 0 <= n <= |w.order| ==> ps[n] == Pass(previous, w, n)
  {
    ps := seq(|w.order| + 1, n requires 0 <= n <= |w.order| => Pass(previous, w, n));
    forall n | 0 <= n < |w.order| ensures Visits(previous, w, ps, n) {
      assert w.order[n] in w.order;
    }
  }

  /** What is remembered of a turn after the first `n` turns, and which ends are reported of it: that of one visit
      if the turn is among them, however often it is listed, and nothing new otherwise. */
  ghost predicate Effect(previous: Option<Memory>, w: Window, n: nat, t: TurnId, p: Progress)
    requires n <= |w.order|
  {
    var c := CellOf(Carried(previous, w.turns), t);
    && (t !in w.order[..n] ==> CellOf(p.marks, t) == c && Ends(p.events, t) == 0)
    && (t in w.order[..n] ==>
          && t in w.turns
          && CellOf(p.marks, t) == VisitCell(previous.None?, WasActive(previous, t), w.turns[t], c)
          && Ends(p.events, t) == if Reports(previous.None?, WasActive(previous, t), w.turns[t], c) then 1 else 0)
  }

  lemma {:induction false} EffectGoesOn(previous: Option<Memory>, w: Window, ps: seq<Progress>, n: nat, t: TurnId)
    requires Consistent(w) && Trail(previous, w, ps) && n < |w.order| && Effect(previous, w, n, t, ps[n])
    ensures Effect(previous, w, n + 1, t, ps[n + 1])
  {
    assert Visits(previous, w, ps, n);
    assert w.order[..n + 1] == w.order[..n] + [w.order[n]];
    VisitEffect(previous, w, w.order[n], ps[n], t);
    if w.order[n] == t {
      VisitTwice(previous.None?, WasActive(previous, t), w.turns[t], CellOf(Carried(previous, w.turns), t));
    }
  }

  lemma {:induction false} TrailEffect(previous: Option<Memory>, w: Window, ps: seq<Progress>, n: nat, t: TurnId)
    requires Consistent(w) && Trail(previous, w, ps) && n <= |w.order| && ps[0] == Progress(Carried(previous, w.turns), [])
    ensures Effect(previous, w, n, t, ps[n])
  {
    if n > 0 {
      TrailEffect(previous, w, ps, n - 1, t);
      EffectGoesOn(previous, w, ps, n - 1, t);
    }
  }

  /** That is so of a pass. */
  lemma {:induction false} PassEffect(previous: Option<Memory>, w: Window, n: nat, t: TurnId)
    requires Consistent(w) && n <= |w.order|
    ensures Effect(previous, w, n, t, Pass(previous, w, n))
  {
    var ps := PassesTrail(previous, w);
    TrailEffect(previous, w, ps, n, t);
  }

  lemma {:induction false} PassTombstones(previous: Option<Memory>, w: Window, n: nat, t: TurnId)
    requires n <= |w.order|
    ensures var a, b := Carried(previous, w.turns).tombstones, Pass(previous, w, n).marks.tombstones;
            t in b ==> t in a && b[t] == a[t]
  {
    if n > 0 {
      PassTombstones(previous, w, n - 1, t);
    }
  }

  // ---- One turn across one projection ----

  function Sighting(raws: seq<RawTurn>, t: TurnId): Option<Turn> {
    if t in Shown(raws).turns then Some(Shown(raws).turns[t]) else None
  }

  ghost predicate Graves(m: Memory) {
    forall t :: t in m.marks.tombstones ==> Active(m.marks.tombstones[t])
  }

  ghost predicate GravesOf(previous: Option<Memory>) {
    previous.Some? ==> Graves(previous.value)
  }

  lemma {:induction false} ProjectKeepsGraves(previous: Option<Memory>, raws: seq<RawTurn>)
    requires GravesOf(previous)
    ensures Graves(Project(previous, raws).0)
  {
    var w := Shown(raws);
    forall t | t in Pass(previous, w, |w.order|).marks.tombstones
      ensures Active(Pass(previous, w, |w.order|).marks.tombstones[t])
    {
      PassTombstones(previous, w, |w.order|, t);
    }
  }

  lemma {:induction false} ProjectEffect(previous: Option<Memory>, raws: seq<RawTurn>, t: TurnId)
    ensures var (m, events) := Project(previous, raws);
            var c := CellOf(Carried(previous, Shown(raws).turns), t);
            match Sighting(raws, t)
            case None => CellOf(m.marks, t) == c && Ends(events, t) == 0
            case Some(turn) =>
              && CellOf(m.marks, t) == VisitCell(previous.None?, WasActive(previous, t), turn, c)
              && Ends(events, t) == if Reports(previous.None?, WasActive(previous, t), turn, c) then 1 else 0
  {
    var w := Shown(raws);
    ShownConsistent(raws);
    PassEffect(previous, w, |w.order|, t);
    assert w.order[..|w.order|] == w.order;
  }

  function Cell0(previous: Option<Memory>, t: TurnId): Cell {
    if previous.None? then Cell(false, false, false) else CellOf(previous.value.marks, t)
  }

  /** A revision that does not show the turn forgets nothing about it. */
  lemma {:induction false} AbsentStep(previous: Option<Memory>, raws: seq<RawTurn>, t: TurnId)
    requires GravesOf(previous) && Sighting(raws, t).None?
    ensures var (m, events) := Project(previous, raws);
            && Ends(events, t) == 0
            && CellOf(m.marks, t).terminal == Cell0(previous, t).terminal
            && CellOf(m.marks, t).candidate == Cell0(previous, t).candidate
            && (WasActive(Some(m), t) <==> WasActive(previous, t) || Cell0(previous, t).tombstone)
            && (CellOf(m.marks, t).tombstone <==> WasActive(previous, t) || Cell0(previous, t).tombstone)
  {
    ProjectEffect(previous, raws, t);
    ProjectKeepsGraves(previous, raws);
  }

  /** A revision that shows the turn decides by what it shows and what was remembered. */
  lemma {:induction false} PresentStep(previous: Option<Memory>, raws: seq<RawTurn>, t: TurnId)
    requires Sighting(raws, t).Some?
    ensures var (m, events) := Project(previous, raws);
            var turn, c := Sighting(raws, t).value, Cell0(previous, t);
            && Ends(events, t) == (if Reports(previous.None?, WasActive(previous, t), turn, c) then 1 else 0)
            && CellOf(m.marks, t).(tombstone := false)
               == VisitCell(previous.None?, WasActive(previous, t), turn, c).(tombstone := false)
            && (WasActive(Some(m), t) <==> Active(turn))
            && (CellOf(m.marks, t).tombstone ==> c.tombstone)
  {
    ProjectEffect(previous, raws, t);
  }

  // ---- Chains ----

  function Before(memories: seq<Memory>, n: nat): Option<Memory>
    requires n <= |memories|
  {
    if n == 0 then None else Some(memories[n - 1])
  }

  /** Projections of one thread within one connection epoch, each from the memory of the one before. */
  ghost predicate Chain(memories: seq<Memory>, events: seq<seq<Event>>, raws: seq<seq<RawTurn>>) {
    && |memories| == |events| == |raws|
    && forall n :: 0 <= n < |raws| ==> Link(memories, events, raws, n)
  }

  ghost predicate Link(memories: seq<Memory>, events: seq<seq<Event>>, raws: seq<seq<RawTurn>>, n: nat)
    requires n < |memories| == |events| == |raws|
  {
    (memories[n], events[n]) == Project(Before(memories, n), raws[n])
  }

  lemma {:induction false} ChainGraves(memories: seq<Memory>, events: seq<seq<Event>>, raws: seq<seq<RawTurn>>, n: nat)
    requires Chain(memories, events, raws) && n <= |raws|
    ensures GravesOf(Before(memories, n))
  {
    if n > 0 {
      ChainGraves(memories, events, raws, n - 1);
      ProjectKeepsGraves(Before(memories, n - 1), raws[n - 1]);
      assert Link(memories, events, raws, n - 1);
    }
  }

  /** Terminal events of the turn in the first `n` projections. */
  function Total(events: seq<seq<Event>>, n: nat, t: TurnId): nat
    requires n <= |events|
  {
    if n == 0 then 0 else Total(events, n - 1, t) + Ends(events[n - 1], t)
  }

  lemma {:induction false} StepCount(previous: Option<Memory>, raws: seq<RawTurn>, t: TurnId)
    requires GravesOf(previous)
    ensures var (m, events) := Project(previous, raws);
            && Ends(events, t) <= (if t in m.marks.terminal then 1 else 0) - (if Cell0(previous, t).terminal then 1 else 0)
  {
    if Sighting(raws, t).None? {
      AbsentStep(previous, raws, t);
    } else {
      PresentStep(previous, raws, t);
    }
  }

  /** Main theorem, first part: a turn is reported as ended at most once. */
  lemma {:induction false} AtMostOneEnd(memories: seq<Memory>, events: seq<seq<Event>>, raws: seq<seq<RawTurn>>, n: nat, t: TurnId)
    requires Chain(memories, events, raws) && n <= |raws|
    ensures Total(events, n, t) <= (if Cell0(Before(memories, n), t).terminal then 1 else 0)
  {
    if n > 0 {
      AtMostOneEnd(memories, events, raws, n - 1, t);
      ChainGraves(memories, events, raws, n - 1);
      StepCount(Before(memories, n - 1), raws[n - 1], t);
      assert Link(memories, events, raws, n - 1);
    }
  }

  predicate SeenActive(raws: seq<RawTurn>, t: TurnId) {
    Sighting(raws, t).Some? && Active(Sighting(raws, t).value)
  }

  ghost predicate EverActive(raws: seq<seq<RawTurn>>, n: nat, t: TurnId)
    requires n <= |raws|
  {
    exists m :: 0 <= m < n && SeenActive(raws[m], t)
  }

  /** Whatever the memory holds for an unfinished turn goes back to seeing it active. */
  lemma {:induction false} MemoryMeansActive(memories: seq<Memory>, events: seq<seq<Event>>, raws: seq<seq<RawTurn>>, n: nat, t: TurnId)
    requires Chain(memories, events, raws) && n <= |raws|
    ensures var b := Before(memories, n);
            WasActive(b, t) || Cell0(b, t).candidate || Cell0(b, t).tombstone ==> EverActive(raws, n, t)
  {
    if n > 0 {
      MemoryMeansActive(memories, events, raws, n - 1, t);
      ChainGraves(memories, events, raws, n - 1);
      assert Link(memories, events, raws, n - 1);
      if Sighting(raws[n - 1], t).None? {
        AbsentStep(Before(memories, n - 1), raws[n - 1], t);
      } else {
        PresentStep(Before(memories, n - 1), raws[n - 1], t);
        if Active(Sighting(raws[n - 1], t).value) {
          assert SeenActive(raws[n - 1], t);
        }
      }
      if EverActive(raws, n - 1, t) {
        var m :| 0 <= m < n - 1 && SeenActive(raws[m], t);
      }
    }
  }

  /** Main theorem, second part: an end is reported only of a turn that was seen active before, and only
      when the revision shows it ended and ready. */
  lemma {:induction false} EndOnlyAfterActive(memories: seq<Memory>, events: seq<seq<Event>>, raws: seq<seq<RawTurn>>, n: nat, t: TurnId)
    requires Chain(memories, events, raws) && n < |raws| && Ends(events[n], t) > 0
    ensures EverActive(raws, n, t)
    ensures Sighting(raws[n], t).Some? && Ended(Sighting(raws[n], t).value) && Ready(Sighting(raws[n], t).value)
  {
    assert Link(memories, events, raws, n);
    ChainGraves(memories, events, raws, n);
    MemoryMeansActive(memories, events, raws, n, t);
    if Sighting(raws[n], t).None? {
      AbsentStep(Before(memories, n), raws[n], t);
    } else {
      PresentStep(Before(memories, n), raws[n], t);
    }
  }

  // ---- Exactly one end ----

  /** The memory will report the turn at its next ready end. */
  predicate Armed(previous: Option<Memory>, t: TurnId) {
    !Cell0(previous, t).terminal && (WasActive(previous, t) || Cell0(previous, t).candidate)
  }

  /** The revision shows the turn active, not at all, or ended without its answer. */
  predicate Unfinished(raws: seq<RawTurn>, t: TurnId) {
    match Sighting(raws, t)
    case None => true
    case Some(turn) => Active(turn) || (Ended(turn) && !Ready(turn))
  }

  predicate ReadyEnd(raws: seq<RawTurn>, t: TurnId) {
    Sighting(raws, t).Some? && Ended(Sighting(raws, t).value) && Ready(Sighting(raws, t).value)
  }

  lemma ActiveIsNotEnded(turn: Turn)
    requires Active(turn)
    ensures !Ended(turn)
  {
  }

  lemma {:induction false} UnfinishedKeepsArmed(previous: Option<Memory>, raws: seq<RawTurn>, t: TurnId)
    requires GravesOf(previous) && Armed(previous, t) && Unfinished(raws, t)
    ensures Armed(Some(Project(previous, raws).0), t) && Ends(Project(previous, raws).1, t) == 0
  {
    if Sighting(raws, t).None? {
      AbsentStep(previous, raws, t);
    } else {
      PresentStep(previous, raws, t);
      if Active(Sighting(raws, t).value) {
        ActiveIsNotEnded(Sighting(raws, t).value);
      }
    }
  }

  lemma {:induction false} ActiveArms(previous: Option<Memory>, raws: seq<RawTurn>, t: TurnId)
    requires !Cell0(previous, t).terminal && SeenActive(raws, t)
    ensures Armed(Some(Project(previous, raws).0), t) && Ends(Project(previous, raws).1, t) == 0
  {
    PresentStep(previous, raws, t);
    ActiveIsNotEnded(Sighting(raws, t).value);
  }

  lemma {:induction false} UnseenIsUnmarked(memories: seq<Memory>, events: seq<seq<Event>>, raws: seq<seq<RawTurn>>, n: nat, t: TurnId)
    requires Chain(memories, events, raws) && n <= |raws|
    requires forall j :: 0 <= j < n ==> Sighting(raws[j], t).None?
    ensures !Cell0(Before(memories, n), t).terminal && Total(events, n, t) == 0
  {
    if n > 0 {
      UnseenIsUnmarked(memories, events, raws, n - 1, t);
      ChainGraves(memories, events, raws, n - 1);
      assert Link(memories, events, raws, n - 1);
      AbsentStep(Before(memories, n - 1), raws[n - 1], t);
    }
  }

  /** From its first, active sighting on, an unfinished turn stays armed and silent. */
  lemma {:induction false} StaysArmed(memories: seq<Memory>, events: seq<seq<Event>>, raws: seq<seq<RawTurn>>, m: nat, n: nat, t: TurnId)
    requires Chain(memories, events, raws) && m < n <= |raws|
    requires forall j :: 0 <= j < m ==> Sighting(raws[j], t).None?
    requires SeenActive(raws[m], t)
    requires forall j :: m < j < n ==> Unfinished(raws[j], t)
    ensures Armed(Before(memories, n), t) && Total(events, n, t) == 0
    decreases n
  {
    assert Link(memories, events, raws, n - 1);
    if n == m + 1 {
      UnseenIsUnmarked(memories, events, raws, m, t);
      ActiveArms(Before(memories, m), raws[m], t);
    } else {
      StaysArmed(memories, events, raws, m, n - 1, t);
      ChainGraves(memories, events, raws, n - 1);
      UnfinishedKeepsArmed(Before(memories, n - 1), raws[n - 1], t);
    }
  }

  /** Main theorem, third part: a turn first seen active, and from then on active, absent or ended without
      its answer, is reported exactly once: at the first revision that shows it ended and ready. */
  lemma {:induction false} ExactlyOneEnd(memories: seq<Memory>, events: seq<seq<Event>>, raws: seq<seq<RawTurn>>, m: nat, k: nat, n: nat, t: TurnId)
    requires Chain(memories, events, raws) && m < k < n <= |raws|
    requires forall j :: 0 <= j < m ==> Sighting(raws[j], t).None?
    requires SeenActive(raws[m], t)
    requires forall j :: m < j < k ==> Unfinished(raws[j], t)
    requires ReadyEnd(raws[k], t)
    ensures Total(events, k, t) == 0 && Ends(events[k], t) == 1 && Total(events, n, t) == 1
  {
    StaysArmed(memories, events, raws, m, k, t);
    assert Link(memories, events, raws, k);
    PresentStep(Before(memories, k), raws[k], t);
    AtMostOneEnd(memories, events, raws, n, t);
    TotalGrows(events, k + 1, n, t);
  }

  lemma {:induction false} TotalGrows(events: seq<seq<Event>>, a: nat, b: nat, t: TurnId)
    requires a <= b <= |events|
    ensures Total(events, a, t) <= Total(events, b, t)
    decreases b
  {
    if a < b {
      TotalGrows(events, a, b - 1, t);
    }
  }

  // ---- What an end says ----

  ghost predicate Truthful(w: Window, e: Event) {
    && (e.Completed? ==> e.turn in w.turns && w.turns[e.turn].status == "completed" && HasFinalAnswer(w.turns[e.turn]))
    && (e.Error? ==> e.turn in w.turns && Ended(w.turns[e.turn]) && w.turns[e.turn].status != "completed")
    && (e.Error? ==> e.text == if w.turns[e.turn].errorText != "" then w.turns[e.turn].errorText
                               else "Codex turn 已" + w.turns[e.turn].status)
  }

  lemma {:induction false} TurnEventsTruthful(baseline: bool, was: Option<Turn>, w: Window, t: TurnId, c: Cell, e: Event)
    requires t in w.turns && w.turns[t].id == t && e in TurnEvents(baseline, was, t, w.turns[t], c)
    ensures Truthful(w, e)
  {
    DiffNoEnds(t, was, w.turns[t], |w.turns[t].order|);
  }

  lemma {:induction false} VisitTruthful(previous: Option<Memory>, w: Window, t: TurnId, p: Progress)
    requires Consistent(w) && t in w.turns && forall e :: e in p.events ==> Truthful(w, e)
    ensures forall e :: e in Visit(previous, w, t, p).events ==> Truthful(w, e)
  {
    var c := CellOf(p.marks, t);
    forall e | e in TurnEvents(previous.None?, Was(previous, t), t, w.turns[t], c)
      ensures Truthful(w, e)
    {
      TurnEventsTruthful(previous.None?, Was(previous, t), w, t, c, e);
    }
  }

  lemma {:induction false} TrailTruthful(previous: Option<Memory>, w: Window, ps: seq<Progress>, n: nat)
    requires Consistent(w) && Trail(previous, w, ps) && n <= |w.order|
    ensures forall e :: e in ps[n].events ==> Truthful(w, e)
  {
    if n > 0 {
      TrailTruthful(previous, w, ps, n - 1);
      assert Visits(previous, w, ps, n - 1);
      VisitTruthful(previous, w, w.order[n - 1], ps[n - 1]);
    }
  }

  /** Main theorem, fourth part: completion is reported only with a final answer, an error only of a turn
      that ended otherwise, with the turn's own error text if it has one. */
  lemma {:induction false} EndsAreTruthful(previous: Option<Memory>, raws: seq<RawTurn>, e: Event)
    requires e in Project(previous, raws).1
    ensures Truthful(Shown(raws), e)
  {
    ShownConsistent(raws);
    var ps := PassTrail(previous, Shown(raws));
    TrailTruthful(previous, Shown(raws), ps, |Shown(raws).order|);
  }

  // ---- Starts and activity ----

  /** What a start or an activity event says about the revision. */
  ghost predicate Starts(previous: Option<Memory>, w: Window, t: TurnId) {
    t in w.turns && Active(w.turns[t]) && !WasActive(previous, t)
  }

  lemma {:induction false} DiffNoStart(t: TurnId, was: Option<Turn>, turn: Turn, n: nat)
    requires n <= |turn.order|
    ensures forall e :: e in Diff(t, was, turn, n) ==> !e.Started?
  {
    if n > 0 {
      DiffNoStart(t, was, turn, n - 1);
    }
  }

  lemma {:induction false} VisitStarts(previous: Option<Memory>, w: Window, u: TurnId, p: Progress, t: TurnId)
    requires u in w.turns
    ensures Count(Visit(previous, w, u, p).events, Started(t)) ==
              Count(p.events, Started(t)) + if u == t && Starts(previous, w, t) then 1 else 0
  {
    var c := CellOf(p.marks, u);
    var turn, was := w.turns[u], Was(previous, u);
    var wasActive := was.Some? && Active(was.value);
    var started := if Active(turn) && !wasActive then [Started(u)] else [];
    var diff := if previous.Some? || Active(turn) then Diff(u, was, turn, |turn.order|) else [];
    var end := if Reports(previous.None?, wasActive, turn, c) then [TerminalEvent(turn)] else [];
    DiffNoStart(u, was, turn, |turn.order|);
    StartsFirst(started, diff, end, t);
    CountConcat(p.events, started + diff + end, Started(t));
  }

  lemma {:induction false} StartsFirst(started: seq<Event>, diff: seq<Event>, end: seq<Event>, t: TurnId)
    requires |started| <= 1 && Started(t) !in diff && Started(t) !in end
    ensures Count(started + diff + end, Started(t)) == if started == [Started(t)] then 1 else 0
  {
    CountConcat(started + diff, end, Started(t));
    CountConcat(started, diff, Started(t));
    CountAbsent(diff, Started(t));
    CountAbsent(end, Started(t));
    if started != [] {
      assert started[..0] == [];
    }
  }

  lemma {:induction false} TrailStarts(previous: Option<Memory>, w: Window, ps: seq<Progress>, n: nat, t: TurnId)
    requires Consistent(w) && Trail(previous, w, ps) && n <= |w.order|
    ensures Count(ps[n].events, Started(t)) == if Starts(previous, w, t) then Count(w.order[..n], t) else 0
  {
    if n > 0 {
      TrailStarts(previous, w, ps, n - 1, t);
      assert Visits(previous, w, ps, n - 1);
      assert w.order[..n][..n - 1] == w.order[..n - 1];
      VisitStarts(previous, w, w.order[n - 1], ps[n - 1], t);
    }
  }

  /** Starts are reported exactly of turns that the revision shows active and that were not remembered so: once
      for each time the turn is listed. */
  lemma {:induction false} StartedExactly(previous: Option<Memory>, raws: seq<RawTurn>, t: TurnId)
    ensures Count(Project(previous, raws).1, Started(t)) ==
              if SeenActive(raws, t) && !WasActive(previous, t) then Count(Shown(raws).order, t) else 0
  {
    var w := Shown(raws);
    ShownConsistent(raws);
    var ps := PassTrail(previous, w);
    TrailStarts(previous, w, ps, |w.order|, t);
    assert w.order[..|w.order|] == w.order;
  }
}
