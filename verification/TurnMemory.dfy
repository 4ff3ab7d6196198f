/** What a revision leaves in the memory of a turn, said of its window and of the memory before it, and what that
    means for later revisions. */
module TurnMemory {
  import opened Json
  import opened Projection
  import opened ProjectionChains
  import opened ListedTurns

  /** The turn ran when it was last shown. */
  predicate Ran(previous: Option<Memory>, t: TurnId) {
    previous.Some? &&
    var before, gone := previous.value.window.turns, previous.value.marks.tombstones;
    if t in before then Running(before[t].status) else t in gone && Running(gone[t].status)
  }

  predicate Marked(previous: Option<Memory>, t: TurnId) {
    previous.Some? && t in previous.value.marks.terminal
  }

  predicate Candidate(previous: Option<Memory>, t: TurnId) {
    previous.Some? && t in previous.value.marks.candidates
  }

  /** The turn ran when the revision before the present one showed it, and the present one does not show it. */
  predicate JustVanished(previous: Option<Memory>, now: map<TurnId, Turn>, t: TurnId) {
    && previous.Some? && t in previous.value.window.turns && Running(previous.value.window.turns[t].status)
    && t !in now
  }

  predicate IsOver(now: map<TurnId, Turn>, t: TurnId) {
    t in now && Over(now[t].status)
  }

  /** The end of the turn is due: it is over, answered if completed, and ran before or was waiting for its answer. */
  predicate Due(previous: Option<Memory>, now: map<TurnId, Turn>, t: TurnId) {
    && previous.Some? && !Marked(previous, t) && IsOver(now, t)
    && (now[t].status == "completed" ==> HasFinalAnswer(now[t]))
    && (Ran(previous, t) || Candidate(previous, t))
  }

  /** A turn counts as reported from the revision that reports its end, or from the first one if that already
      shows it over. */
  lemma {:induction false} ReportedExactly(previous: Option<Memory>, raws: seq<RawTurn>, t: TurnId)
    ensures var (m, events) := Project(previous, raws);
            var now := m.window.turns;
            && (Ends(events, t) > 0 <==> Due(previous, now, t))
            && (t in m.marks.terminal <==> Marked(previous, t) || Due(previous, now, t) || (previous.None? && IsOver(now, t)))
  {
    ProjectEffect(previous, raws, t);
  }

  /** A turn waits for its answer from the revision that shows it over without one until its end is reported or a
      revision shows it as not over. */
  lemma {:induction false} AwaitsAnswerExactly(previous: Option<Memory>, raws: seq<RawTurn>, t: TurnId)
    ensures var m := Project(previous, raws).0;
            var now := m.window.turns;
            t in m.marks.candidates <==>
              && !Due(previous, now, t) && previous.Some? && (t in now ==> Over(now[t].status))
              && (Candidate(previous, t) || (t in now && !Marked(previous, t) && Ran(previous, t)))
  {
    ProjectEffect(previous, raws, t);
  }

  /** A turn is remembered as vanished from the revision that stops showing it while it ran until one shows it
      running or over, and as it was when it was shown last. */
  lemma {:induction false} VanishedExactly(previous: Option<Memory>, raws: seq<RawTurn>, t: TurnId)
    ensures var m := Project(previous, raws).0;
            var now, gone := m.window.turns, m.marks.tombstones;
            && (t in gone <==>
                  && previous.Some? && (t in previous.value.marks.tombstones || JustVanished(previous, now, t))
                  && (t in now ==> !Running(now[t].status) && !Over(now[t].status)))
            && (t in gone ==>
                  gone[t] == if JustVanished(previous, now, t) then previous.value.window.turns[t] else previous.value.marks.tombstones[t])
  {
    ProjectEffect(previous, raws, t);
    PassTombstones(previous, Shown(raws), |Shown(raws).order|, t);
  }

  // ---- Chains ----

  /** In a chain: a turn that the first revision shows as over is never reported as ended. */
  lemma {:induction false} OverAtFirstIsSilent(memories: seq<Memory>, events: seq<seq<Event>>, raws: seq<seq<RawTurn>>, n: nat, t: TurnId)
    requires Chain(memories, events, raws) && 0 < n <= |raws| && IsOver(memories[0].window.turns, t)
    ensures Total(events, n, t) == 0 && t in memories[n - 1].marks.terminal
  {
    assert Link(memories, events, raws, n - 1);
    ReportedExactly(Before(memories, n - 1), raws[n - 1], t);
    if n > 1 {
      OverAtFirstIsSilent(memories, events, raws, n - 1, t);
    }
  }

  /** In a chain: a turn that vanished while it ran is remembered as it was then, however many revisions go by
      without it. */
  lemma {:induction false} VanishedIsRemembered(memories: seq<Memory>, events: seq<seq<Event>>, raws: seq<seq<RawTurn>>, j: nat, n: nat, t: TurnId)
    requires Chain(memories, events, raws) && j < n < |raws|
    requires t in memories[j].window.turns && Running(memories[j].window.turns[t].status)
    requires forall k :: j < k <= n ==> t !in memories[k].window.turns
    ensures t in memories[n].marks.tombstones && memories[n].marks.tombstones[t] == memories[j].window.turns[t]
    decreases n
  {
    assert Link(memories, events, raws, n);
    VanishedExactly(Before(memories, n), raws[n], t);
    if n > j + 1 {
      VanishedIsRemembered(memories, events, raws, j, n - 1, t);
      assert t !in memories[n - 1].window.turns;
    }
  }
}
