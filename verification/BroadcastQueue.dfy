/** The bounded queue of Desktop broadcasts: a full queue replaces the newest broadcast of the same topic,
    or else drops its oldest (agent/codex_desktop_client_broadcast.go). */
module BroadcastQueue {
  import opened Json

  const LIMIT: nat := 256

  /** Broadcasts of one connection, method and thread supersede each other. */
  datatype Topic = Topic(epoch: nat, name: Name, thread: Name)

  /** `arrival` numbers the broadcasts as they are read from the connection. */
  datatype Broadcast = Broadcast(topic: Topic, arrival: nat)

  /** The index after the last broadcast of the topic, 0 if there is none. */
  function AfterNewest(q: seq<Broadcast>, t: Topic): (n: nat)
    ensures n <= |q|
    ensures n > 0 ==> q[n - 1].topic == t
    ensures forall i :: n <= i < |q| ==> q[i].topic != t
  {
    if q == [] then 0
    else if q[|q| - 1].topic == t then |q|
    else AfterNewest(q[..|q| - 1], t)
  }

  function Enqueue(q: seq<Broadcast>, b: Broadcast): (r: seq<Broadcast>)
    ensures |q| <= LIMIT ==> |r| <= LIMIT
    ensures b in r
  {
    var n := AfterNewest(q, b.topic);
    var (r, at) :=
      if |q| < LIMIT then (q + [b], |q|)
      else if n > 0 then (q[n - 1 := b], n - 1)
      else (q[1..] + [b], |q| - 1);
    assert r[at] == b;
    r
  }

  predicate Drops(q: seq<Broadcast>, b: Broadcast) {
    |q| >= LIMIT && AfterNewest(q, b.topic) == 0
  }

  // ---- Runs ----

  datatype System = System(queue: seq<Broadcast>, delivered: seq<Broadcast>, arrivals: nat)

  datatype Step = Arrive(topic: Topic) | Deliver

  function Do(s: System, a: Step): System {
    match a
    case Arrive(t) => s.(queue := Enqueue(s.queue, Broadcast(t, s.arrivals)), arrivals := s.arrivals + 1)
    case Deliver =>
      if s.queue == [] then s
      else s.(queue := s.queue[1..], delivered := s.delivered + [s.queue[0]])
  }

  ghost predicate Run(states: seq<System>, steps: seq<Step>) {
    && |states| == |steps| + 1 && states[0] == System([], [], 0)
    && forall n :: 0 <= n < |steps| ==> states[n + 1] == Do(states[n], steps[n])
  }

  /** Broadcasts of one topic stand in the order of their arrival. */
  ghost predicate InOrder(q: seq<Broadcast>) {
    forall i, j :: 0 <= i < j < |q| && q[i].topic == q[j].topic ==> q[i].arrival < q[j].arrival
  }

  ghost predicate Known(q: seq<Broadcast>, arrivals: nat) {
    forall i :: 0 <= i < |q| ==> q[i].arrival < arrivals
  }

  /** What has been delivered, followed by what waits. */
  function Line(s: System): seq<Broadcast> {
    s.delivered + s.queue
  }

  ghost predicate Sound(s: System) {
    |s.queue| <= LIMIT && InOrder(Line(s)) && Known(Line(s), s.arrivals)
  }

  lemma {:induction false} AppendInOrder(d: seq<Broadcast>, q: seq<Broadcast>, b: Broadcast)
    requires InOrder(d + q) && Known(d + q, b.arrival)
    ensures InOrder(d + (q + [b])) && Known(d + (q + [b]), b.arrival + 1)
  {
    assert d + (q + [b]) == (d + q) + [b];
  }

  lemma {:induction false} DropInOrder(d: seq<Broadcast>, q: seq<Broadcast>, n: nat)
    requires InOrder(d + q) && Known(d + q, n) && q != []
    ensures InOrder(d + q[1..]) && Known(d + q[1..], n)
  {
    var whole, part := d + q, d + q[1..];
    forall i | 0 <= i < |part| ensures part[i] == whole[if i < |d| then i else i + 1] {
    }
  }

  lemma {:induction false} ReplaceInOrder(d: seq<Broadcast>, q: seq<Broadcast>, n: nat, b: Broadcast)
    requires InOrder(d + q) && Known(d + q, b.arrival) && 0 < n == AfterNewest(q, b.topic)
    ensures InOrder(d + q[n - 1 := b]) && Known(d + q[n - 1 := b], b.arrival + 1)
  {
    var was, now := d + q, d + q[n - 1 := b];
    var at := |d| + n - 1;
    assert now == was[at := b];
    forall j | at < j < |was| ensures was[j].topic != b.topic {
      assert was[j] == q[j - |d|];
    }
  }

  lemma {:induction false} EnqueueInOrder(d: seq<Broadcast>, q: seq<Broadcast>, b: Broadcast)
    requires InOrder(d + q) && Known(d + q, b.arrival)
    ensures InOrder(d + Enqueue(q, b)) && Known(d + Enqueue(q, b), b.arrival + 1)
  {
    var n := AfterNewest(q, b.topic);
    if |q| < LIMIT {
      AppendInOrder(d, q, b);
    } else if n > 0 {
      ReplaceInOrder(d, q, n, b);
    } else {
      DropInOrder(d, q, b.arrival);
      AppendInOrder(d, q[1..], b);
    }
  }

  /** Main theorem: in every run the queue stays bounded, and each topic is held and delivered in the order
      of arrival. */
  lemma {:induction false} RunIsSound(states: seq<System>, steps: seq<Step>, n: nat)
    requires Run(states, steps) && n <= |steps|
    ensures Sound(states[n])
  {
    if n > 0 {
      RunIsSound(states, steps, n - 1);
      var s := states[n - 1];
      assert states[n - 1 + 1] == Do(s, steps[n - 1]);
      match steps[n - 1]
      case Arrive(t) => EnqueueInOrder(s.delivered, s.queue, Broadcast(t, s.arrivals));
      case Deliver =>
        if s.queue != [] {
          assert Line(Do(s, Deliver)) == Line(s);
        }
    }
  }

  // ---- Nothing newest is lost without a drop ----

  /** Some broadcast of the topic is at least as new as arrival number `a`. */
  ghost predicate Covers(q: seq<Broadcast>, t: Topic, a: nat) {
    exists i :: 0 <= i < |q| && q[i].topic == t && q[i].arrival >= a
  }

  lemma {:induction false} EnqueueCovers(d: seq<Broadcast>, q: seq<Broadcast>, b: Broadcast, t: Topic, a: nat)
    requires Covers(d + q, t, a) && Known(d + q, b.arrival) && !Drops(q, b)
    ensures Covers(d + Enqueue(q, b), t, a)
  {
    var i :| 0 <= i < |d + q| && (d + q)[i].topic == t && (d + q)[i].arrival >= a;
    var r := d + Enqueue(q, b);
    if |q| < LIMIT {
      assert r[i] == (d + q)[i];
    } else {
      var at := |d| + AfterNewest(q, b.topic) - 1;
      assert r[at] == b && (i != at ==> r[i] == (d + q)[i]);
      assert i == at ==> r[at].topic == t && r[at].arrival >= a;
    }
  }

  lemma {:induction false} EnqueueCoversNew(d: seq<Broadcast>, q: seq<Broadcast>, b: Broadcast)
    ensures Covers(d + Enqueue(q, b), b.topic, b.arrival)
  {
    var r := Enqueue(q, b);
    var i :| 0 <= i < |r| && r[i] == b;
    assert (d + r)[|d| + i] == b;
  }

  /** In a run whose full queues always found something to replace, every broadcast has been delivered, or
      waits, or was superseded by a newer one of its topic that has been or does. */
  lemma {:induction false} NewestSurvives(states: seq<System>, steps: seq<Step>, m: nat, n: nat)
    requires Run(states, steps) && m < n <= |steps| && steps[m].Arrive?
    requires forall k :: m < k < n && steps[k].Arrive? ==> !Drops(states[k].queue, Broadcast(steps[k].topic, states[k].arrivals))
    ensures Covers(Line(states[n]), steps[m].topic, states[m].arrivals)
    decreases n
  {
    var t, a := steps[m].topic, states[m].arrivals;
    var s := states[n - 1];
    assert states[n - 1 + 1] == Do(s, steps[n - 1]);
    if n == m + 1 {
      EnqueueCoversNew(s.delivered, s.queue, Broadcast(t, a));
    } else {
      NewestSurvives(states, steps, m, n - 1);
      RunIsSound(states, steps, n - 1);
      match steps[n - 1]
      case Arrive(u) => EnqueueCovers(s.delivered, s.queue, Broadcast(u, s.arrivals), t, a);
      case Deliver =>
        if s.queue != [] {
          assert Line(Do(s, Deliver)) == Line(s);
        }
    }
  }

  // ---- What becomes of a newcomer ----

  /** Broadcast `i` is the newest of the topic. */
  predicate IsNewest(q: seq<Broadcast>, t: Topic, i: int) {
    0 <= i < |q| && q[i].topic == t && forall j :: i < j < |q| ==> q[j].topic != t
  }

  /** While fewer than 256 broadcasts wait, a newcomer joins the end and everything is kept; a full queue puts
      it in the place of the newest of its topic, or, if none waits, drops the oldest and appends it. */
  lemma {:induction false} EnqueueExactly(q: seq<Broadcast>, b: Broadcast)
    ensures |q| < 256 ==> Enqueue(q, b) == q + [b]
    ensures forall i :: |q| >= 256 && IsNewest(q, b.topic, i) ==> Enqueue(q, b) == q[..i] + [b] + q[i + 1..]
    ensures |q| >= 256 && (forall i :: 0 <= i < |q| ==> q[i].topic != b.topic) ==> Enqueue(q, b) == q[1..] + [b]
  {
    var n := AfterNewest(q, b.topic);
    forall i | |q| >= 256 && IsNewest(q, b.topic, i) ensures Enqueue(q, b) == q[..i] + [b] + q[i + 1..] {
      assert n > 0 && i == n - 1;
    }
  }

  /** In every run in which no broadcast arrives at a full queue, all of them are delivered or wait, each in its
      place. */
  lemma {:induction false} NothingIsLostWithRoom(states: seq<System>, steps: seq<Step>, n: nat)
    requires Run(states, steps) && n <= |steps|
    requires forall k :: 0 <= k < n && steps[k].Arrive? ==> |states[k].queue| < 256
    ensures |states[n].delivered + states[n].queue| == states[n].arrivals
    ensures forall i :: 0 <= i < states[n].arrivals ==> (states[n].delivered + states[n].queue)[i].arrival == i
  {
    if n > 0 {
      NothingIsLostWithRoom(states, steps, n - 1);
      var s := states[n - 1];
      assert states[n - 1 + 1] == Do(s, steps[n - 1]);
      match steps[n - 1]
      case Arrive(t) =>
        EnqueueExactly(s.queue, Broadcast(t, s.arrivals));
        assert states[n].delivered + states[n].queue == (s.delivered + s.queue) + [Broadcast(t, s.arrivals)];
      case Deliver =>
        if s.queue != [] {
          assert Line(Do(s, Deliver)) == Line(s);
        }
    }
  }

  /** Delivery takes the oldest of what waits, and nothing from an empty queue. */
  lemma {:induction false} DeliverExactly(s: System)
    ensures s.queue == [] ==> Do(s, Deliver) == s
    ensures forall b, rest :: s.queue == [b] + rest ==> Do(s, Deliver) == System(rest, s.delivered + [b], s.arrivals)
  {
    forall b, rest | s.queue == [b] + rest ensures Do(s, Deliver) == System(rest, s.delivered + [b], s.arrivals) {
      assert s.queue[1..] == rest && s.queue[0] == b;
    }
  }

  // ---- The queue in memory ----

  const BLANK := Broadcast(Topic(0, Name(""), Name("")), 0)

  /** A window `items[head..tail]` of a growing array. */
  class Queue {
    var items: array<Broadcast>
    var head: nat
    var tail: nat

    ghost predicate Valid()
      reads this
    {
      head <= tail <= items.Length
    }

    ghost function Contents(): (q: seq<Broadcast>)
      requires Valid()
      reads this, items
    {
      items[head..tail]
    }

    constructor ()
      ensures Valid() && fresh(items) && Contents() == []
    {
      items, head, tail := new Broadcast[0], 0, 0;
    }

    /** Makes room for one more, in a new array when the old one is used up. */
    method Reserve()
      requires Valid()
      modifies this
      ensures Valid() && tail < items.Length && Contents() == old(Contents())
      ensures items == old(items) || fresh(items)
    {
      if tail < items.Length {
        return;
      }
      var count := tail - head;
      var bigger := new Broadcast[2 * count + 1](_ => BLANK);
      for i := 0 to count
        invariant Valid() && head == old(head) && tail == old(tail) && items == old(items)
        invariant fresh(bigger) && bigger.Length == 2 * count + 1
        invariant bigger[..i] == items[head..head + i] && items[..] == old(items[..])
      {
        bigger[i] := items[head + i];
      }
      items, head, tail := bigger, 0, count;
    }

    /** Searches from the end for the newest broadcast of the topic. */
    method FindNewest(t: Topic) returns (index: int)
      requires Valid()
      ensures index == AfterNewest(Contents(), t) as int - 1
    {
      index := tail - head - 1;
      while index >= 0
        invariant -1 <= index < tail - head
        invariant forall i :: index < i < tail - head ==> Contents()[i].topic != t
      {
        if items[head + index].topic == t {
          return;
        }
        index := index - 1;
      }
    }

    /** Shifts everything down by one, over the oldest, and puts the new broadcast last. */
    method ShiftIn(b: Broadcast)
      requires Valid() && head < tail
      modifies items
      ensures Contents() == old(Contents())[1..] + [b]
    {
      var n := tail - 1;
      for i := head to n
        invariant forall k :: head <= k < i ==> items[k] == old(items[k + 1])
        invariant forall k :: i <= k < tail ==> items[k] == old(items[k])
      {
        items[i] := items[i + 1];
      }
      items[n] := b;
    }

    method Push(b: Broadcast)
      requires Valid()
      modifies this, items
      ensures Valid() && Contents() == Enqueue(old(Contents()), b)
      ensures items == old(items) || fresh(items)
    {
      if tail - head < LIMIT {
        Reserve();
        items[tail] := b;
        tail := tail + 1;
        return;
      }
      var index := FindNewest(b.topic);
      if index >= 0 {
        items[head + index] := b;
      } else {
        ShiftIn(b);
      }
    }

    /** Takes the oldest and blanks its cell. */
    method Pop() returns (b: Option<Broadcast>)
      requires Valid()
      modifies this, items
      ensures Valid() && items == old(items)
      ensures old(Contents()) == [] ==> b == None && Contents() == []
      ensures old(Contents()) != [] ==> b == Some(old(Contents())[0]) && Contents() == old(Contents())[1..]
    {
      if head == tail {
        return None;
      }
      b := Some(items[head]);
      items[head] := BLANK;
      head := head + 1;
    }
  }
}
