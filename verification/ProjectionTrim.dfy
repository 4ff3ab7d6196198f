/** What trimming the window of turns keeps. */
module ProjectionTrim {
  import opened Projection
  import opened ProjectionChains

  // ---- A subsequence of the original order ----

  /** `picks` selects the elements of `part` from `whole`, from left to right. */
  ghost predicate Selects(whole: seq<TurnId>, part: seq<TurnId>, picks: seq<nat>) {
    && |picks| == |part|
    && (forall k :: 0 <= k < |picks| ==> picks[k] < |whole| && whole[picks[k]] == part[k])
    && (forall j, k :: 0 <= j < k < |picks| ==> picks[j] < picks[k])
  }

  lemma {:induction false} FilterSelects(order: seq<TurnId>, keep: set<TurnId>) returns (picks: seq<nat>)
    ensures Selects(order, Filter(order, keep), picks)
  {
    if order == [] {
      picks := [];
    } else {
      var n := |order| - 1;
      var rest := FilterSelects(order[..n], keep);
      picks := if order[n] in keep then rest + [n] else rest;
    }
  }

  ghost predicate Distinct(s: seq<TurnId>) {
    forall i, j :: 0 <= i < j < |s| ==> s[i] != s[j]
  }

  lemma {:induction false} FilterDistinct(order: seq<TurnId>, keep: set<TurnId>)
    requires Distinct(order)
    ensures Distinct(Filter(order, keep))
  {
    var picks := FilterSelects(order, keep);
  }

  // ---- What is kept ----

  /** The window is the turns kept from the start and everything from some index on. */
  lemma {:induction false} FillStops(order: seq<TurnId>, n: nat, keep: set<TurnId>) returns (stop: nat)
    requires n <= |order|
    ensures stop <= n
    ensures forall t :: t in Fill(order, n, keep) <==> t in keep || t in order[stop..n]
  {
    if n == 0 || |keep| >= MAX_TURNS {
      stop := n;
    } else {
      stop := FillStops(order, n - 1, keep + {order[n - 1]});
      assert order[stop..n] == order[stop..n - 1] + [order[n - 1]];
    }
  }

  ghost predicate LastOccurrence(order: seq<TurnId>, i: nat)
    requires i < |order|
  {
    forall j :: i < j < |order| ==> order[j] != order[i]
  }

  /** Index `i` is where a turn was last listed that is idle and was kept. */
  ghost predicate KeptIdle(w: Window, i: nat)
    requires Consistent(w) && i < |w.order|
  {
    LastOccurrence(w.order, i) && w.order[i] in Trim(w).order && w.order[i] in w.turns && !Active(w.turns[w.order[i]])
  }

  /** Trimming keeps a subsequence that holds every active turn, and drops no turn newer than a kept idle
      one. */
  lemma {:induction false} TrimKeeps(w: Window) returns (picks: seq<nat>)
    requires Consistent(w)
    ensures Selects(w.order, Trim(w).order, picks)
    ensures forall t :: t in w.turns && Active(w.turns[t]) ==> t in Trim(w).order
    ensures forall i, j :: 0 <= i < j < |w.order| && KeptIdle(w, i) ==> w.order[j] in Trim(w).order
    ensures Consistent(Trim(w)) && forall t :: t in Trim(w).turns ==> t in w.turns && Trim(w).turns[t] == w.turns[t]
  {
    if |w.order| <= MAX_TURNS {
      picks := seq(|w.order|, k => k);
    } else {
      picks := FilterSelects(w.order, Keep(w));
      var n := |w.order|;
      var stop := FillStops(w.order, n, ActiveIds(w.turns, w.order));
      forall t ensures t in Filter(w.order, Keep(w)) <==> t in w.order && t in Keep(w) {
        FilterMembers(w.order, Keep(w), t);
      }
      forall i, j | 0 <= i < j < n && KeptIdle(w, i)
        ensures w.order[j] in Trim(w).order
      {
        assert w.order[i] in w.order[stop..n];
        var k :| stop <= k < n && w.order[k] == w.order[i];
        assert k <= i;
        assert w.order[stop..n][j - stop] == w.order[j];
      }
    }
  }

  // ---- How much is kept ----

  lemma {:induction false} DistinctSize(s: seq<TurnId>, members: set<TurnId>)
    requires Distinct(s) && forall t :: t in s <==> t in members
    ensures |s| == |members|
  {
    if s == [] {
      assert members == {};
    } else {
      var n := |s| - 1;
      assert s == s[..n] + [s[n]];
      DistinctSize(s[..n], members - {s[n]});
    }
  }

  lemma {:induction false} SubsetSize(a: set<TurnId>, b: set<TurnId>)
    requires a <= b
    ensures |a| <= |b|
  {
    assert b == a + (b - a);
  }

  lemma {:induction false} FillSize(order: seq<TurnId>, n: nat, keep: set<TurnId>)
    requires n <= |order|
    ensures |Fill(order, n, keep)| <= if |keep| >= MAX_TURNS then |keep| else MAX_TURNS
    ensures |Fill(order, n, keep)| < MAX_TURNS ==> forall i :: 0 <= i < n ==> order[i] in Fill(order, n, keep)
    ensures keep <= Fill(order, n, keep)
  {
    if n > 0 && |keep| < MAX_TURNS {
      FillSize(order, n - 1, keep + {order[n - 1]});
    }
  }

  function Larger(a: nat, b: nat): nat {
    if a >= b then a else b
  }

  lemma {:induction false} KeepSize(w: Window)
    requires |w.order| > MAX_TURNS && Distinct(w.order)
    ensures |Keep(w)| == Larger(MAX_TURNS, |ActiveIds(w.turns, w.order)|)
  {
    var active := ActiveIds(w.turns, w.order);
    FillSize(w.order, |w.order|, active);
    SubsetSize(active, Keep(w));
    if |Keep(w)| < MAX_TURNS {
      var members := set t | t in w.order;
      DistinctSize(w.order, members);
      SubsetSize(members, Keep(w));
    }
  }

  /** With distinct identifiers the window is exactly 200 turns, or all active ones if they are more. */
  lemma {:induction false} TrimSize(w: Window)
    requires Distinct(w.order)
    ensures |Trim(w).order| == if |w.order| <= MAX_TURNS then |w.order| else Larger(MAX_TURNS, |ActiveIds(w.turns, w.order)|)
  {
    if |w.order| > MAX_TURNS {
      KeepSize(w);
      FilterDistinct(w.order, Keep(w));
      var stop := FillStops(w.order, |w.order|, ActiveIds(w.turns, w.order));
      forall t ensures t in Filter(w.order, Keep(w)) <==> t in Keep(w) {
        FilterMembers(w.order, Keep(w), t);
      }
      DistinctSize(Filter(w.order, Keep(w)), Keep(w));
    }
  }
}
