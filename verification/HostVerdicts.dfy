/** What it takes for a process group to be recognised, said of the rows of the snapshot
    (agent/codex_host_conflict.go). */
module HostVerdicts {
  import opened Json
  import opened ProcessAncestry

  function Links(processes: seq<Process>, pgid: int): map<int, int> {
    Index(processes, pgid).parents
  }

  ghost predicate Listed(processes: seq<Process>, pid: int) {
    exists k :: LastRow(processes, k, pid)
  }

  /** Every process of the group is this user's and has `root` among its ancestors, itself included. */
  ghost predicate BelowRoot(processes: seq<Process>, pgid: int, uid: nat, root: int) {
    forall p :: p in processes && p.pgid == pgid ==> p.uid == uid && Descends(p.pid, Links(processes, pgid), {root})
  }

  /** The last row of `pid` is an official daemon's with this home, and the whole group is of its user and below
      it. */
  ghost predicate RunsDaemon(processes: seq<Process>, pgid: int, rules: Rules, pid: int, home: Name) {
    exists k :: LastRow(processes, k, pid) && rules.home(processes[k]) == Some(home) && BelowRoot(processes, pgid, processes[k].uid, pid)
  }

  /** Some process of the group is in the snapshot. */
  ghost predicate Present(processes: seq<Process>, pgid: int) {
    exists p :: p in processes && p.pgid == pgid
  }

  lemma {:induction false} MembersOf(processes: seq<Process>, pgid: int)
    ensures forall p :: p in Index(processes, pgid).members <==> p in processes && p.pgid == pgid
    ensures Index(processes, pgid).members != [] <==> Present(processes, pgid)
  {
    var m := Index(processes, pgid).members;
    forall p ensures p in m <==> p in processes && p.pgid == pgid {
      MembersAreTheGroup(processes, pgid, p);
    }
    if m != [] {
      assert m[0] in m;
    }
  }

  lemma {:induction false} DaemonTreeExactly(processes: seq<Process>, pgid: int, uid: nat, root: int)
    ensures DaemonTree(Index(processes, pgid), uid, root) <==> BelowRoot(processes, pgid, uid, root)
  {
    var t := Index(processes, pgid);
    MembersOf(processes, pgid);
    if DaemonTree(t, uid, root) {
      forall p | p in processes && p.pgid == pgid ensures p.uid == uid && Descends(p.pid, t.parents, {root}) {
        var i :| 0 <= i < |t.members| && t.members[i] == p;
      }
    }
    if BelowRoot(processes, pgid, uid, root) {
      forall i | 0 <= i < |t.members| ensures t.members[i].uid == uid && Descends(t.members[i].pid, t.parents, {root}) {
        assert t.members[i] in t.members;
      }
    }
  }

  lemma {:induction false} DaemonExactly(processes: seq<Process>, g: Group, rules: Rules, i: nat)
    requires i < |g.pids|
    ensures var t := Index(processes, g.pgid);
            && (IsDaemon(t, g, rules, i) <==> exists home :: RunsDaemon(processes, g.pgid, rules, g.pids[i], home))
            && (g.pids[i] in t.byPid <==> Listed(processes, g.pids[i]))
            && forall home :: IsDaemon(t, g, rules, i) ==>
                 (rules.home(t.byPid[g.pids[i]]) == Some(home) <==> RunsDaemon(processes, g.pgid, rules, g.pids[i], home))
  {
    var t, pid := Index(processes, g.pgid), g.pids[i];
    IndexExactly(processes, g.pgid, pid);
    if pid in t.byPid {
      var k :| LastRow(processes, k, pid);
      forall j | LastRow(processes, j, pid) ensures j == k {
      }
      DaemonTreeExactly(processes, g.pgid, processes[k].uid, pid);
      if IsDaemon(t, g, rules, i) {
        assert RunsDaemon(processes, g.pgid, rules, pid, rules.home(processes[k]).value);
      }
    }
  }

  /** The first listed process that runs a daemon over the whole group; none before it is missing from the
      snapshot. */
  ghost predicate FirstToRun(processes: seq<Process>, g: Group, rules: Rules, i: int, home: Name) {
    && 0 <= i < |g.pids| && Present(processes, g.pgid) && RunsDaemon(processes, g.pgid, rules, g.pids[i], home)
    && forall j :: 0 <= j < i ==> Listed(processes, g.pids[j]) && forall other :: !RunsDaemon(processes, g.pgid, rules, g.pids[j], other)
  }

  /** Main theorem: a group is recognised as an official daemon exactly by the first of its listed processes that runs
      one over the whole group. */
  lemma {:induction false} OfficialExactly(processes: seq<Process>, g: Group, rules: Rules, host: int, home: Name)
    ensures IsOfficial(Index(processes, g.pgid), g, rules, host, home) <==>
              exists i :: FirstToRun(processes, g, rules, i, home) && g.pids[i] == host
  {
    var t := Index(processes, g.pgid);
    MembersOf(processes, g.pgid);
    forall i: nat | i < |g.pids|
      ensures FirstDaemon(t, g, rules, i) && rules.home(t.byPid[g.pids[i]]) == Some(home) <==> FirstToRun(processes, g, rules, i, home)
    {
      FirstExactly(processes, g, rules, i, home);
    }
  }

  lemma {:induction false} FirstExactly(processes: seq<Process>, g: Group, rules: Rules, i: nat, home: Name)
    requires i < |g.pids|
    ensures var t := Index(processes, g.pgid);
            FirstDaemon(t, g, rules, i) && rules.home(t.byPid[g.pids[i]]) == Some(home) <==> FirstToRun(processes, g, rules, i, home)
  {
    MembersOf(processes, g.pgid);
    forall j | 0 <= j <= i
      ensures var t := Index(processes, g.pgid);
              && (IsDaemon(t, g, rules, j) <==> exists home :: RunsDaemon(processes, g.pgid, rules, g.pids[j], home))
              && (g.pids[j] in t.byPid <==> Listed(processes, g.pids[j]))
    {
      DaemonExactly(processes, g, rules, j);
    }
    DaemonExactly(processes, g, rules, i);
  }

  /** The last row of `host` is a Host inside the app, and `p` is a root of the app in the group, of the group's user,
      among its ancestors. */
  ghost predicate UnderApp(processes: seq<Process>, g: Group, rules: Rules, host: int, p: Process) {
    && (exists k :: LastRow(processes, k, host) && rules.privateHost(processes[k]))
    && p in processes && p.pgid == g.pgid && p.uid == g.uid && rules.appRoot(p)
    && Descends(host, Links(processes, g.pgid), {p.pid})
  }

  /** A group is recognised as private to the app only if all its listed processes are in the snapshot, none runs an
      official daemon over it, one of them is a Host under a root of the app, and the whole group is of the
      group's user and is that root or below it. */
  lemma {:induction false} PrivateMeans(processes: seq<Process>, g: Group, rules: Rules, host: int, app: int)
    requires IsAppPrivate(Index(processes, g.pgid), g, rules, host, app)
    ensures host in g.pids && exists p :: UnderApp(processes, g, rules, host, p) && p.pid == app
    ensures forall j :: 0 <= j < |g.pids| ==> Listed(processes, g.pids[j]) && forall home :: !RunsDaemon(processes, g.pgid, rules, g.pids[j], home)
    ensures forall p :: p in processes && p.pgid == g.pgid ==>
              p.uid == g.uid && (p.pid == app || Descends(p.pid, Links(processes, g.pgid), {app}))
  {
    var t := Index(processes, g.pgid);
    MembersOf(processes, g.pgid);
    var h: nat, c: nat :| FirstPair(t, g, rules, h, c) && OneTree(t, g.uid, t.members[c].pid) && host == g.pids[h] && app == t.members[c].pid;
    IndexExactly(processes, g.pgid, host);
    assert t.members[c] in t.members;
    assert UnderApp(processes, g, rules, host, t.members[c]);
    TreeIsWholeGroup(processes, g.pgid, g.uid, app);
    forall j | 0 <= j < |g.pids|
      ensures Listed(processes, g.pids[j]) && forall home :: !RunsDaemon(processes, g.pgid, rules, g.pids[j], home)
    {
      DaemonExactly(processes, g, rules, j);
    }
  }

  /** And it is, by the first such process under the first such root, if there is only one such root and the whole
      group is below it. */
  lemma {:induction false} PrivateIf(processes: seq<Process>, g: Group, rules: Rules, app: int)
    requires forall j :: 0 <= j < |g.pids| ==> Listed(processes, g.pids[j]) && forall home :: !RunsDaemon(processes, g.pgid, rules, g.pids[j], home)
    requires exists host, p :: host in g.pids && UnderApp(processes, g, rules, host, p)
    requires forall host, p :: host in g.pids && UnderApp(processes, g, rules, host, p) ==> p.pid == app
    requires BelowRoot(processes, g.pgid, g.uid, app)
    ensures exists host :: host in g.pids && IsAppPrivate(Index(processes, g.pgid), g, rules, host, app)
  {
    var t := Index(processes, g.pgid);
    MembersOf(processes, g.pgid);
    forall j | 0 <= j < |g.pids| ensures g.pids[j] in t.byPid && !IsDaemon(t, g, rules, j) {
      DaemonExactly(processes, g, rules, j);
    }
    var h, c := FirstUnder(processes, g, rules);
    PairIsUnder(processes, g, rules, h, c);
    TreeIsWholeGroup(processes, g.pgid, g.uid, app);
    assert t.members[c].pid == app && FirstPair(t, g, rules, h, c);
  }

  lemma {:induction false} PairIsUnder(processes: seq<Process>, g: Group, rules: Rules, h: nat, c: nat)
    requires var t := Index(processes, g.pgid); h < |g.pids| && c < |t.members|
    ensures IsPair(Index(processes, g.pgid), g, rules, h, c) <==>
              UnderApp(processes, g, rules, g.pids[h], Index(processes, g.pgid).members[c])
  {
    var t := Index(processes, g.pgid);
    MembersOf(processes, g.pgid);
    IndexExactly(processes, g.pgid, g.pids[h]);
    assert t.members[c] in t.members;
    if g.pids[h] in t.byPid {
      var k :| LastRow(processes, k, g.pids[h]);
      forall j | LastRow(processes, j, g.pids[h]) ensures j == k {
      }
    }
  }

  /** Places in the order in which the search visits them. */
  lemma {:induction false} FirstUnder(processes: seq<Process>, g: Group, rules: Rules) returns (h: nat, c: nat)
    requires exists host, p :: host in g.pids && UnderApp(processes, g, rules, host, p)
    ensures FirstPair(Index(processes, g.pgid), g, rules, h, c)
  {
    var t := Index(processes, g.pgid);
    var host, p :| host in g.pids && UnderApp(processes, g, rules, host, p);
    var i: nat :| i < |g.pids| && g.pids[i] == host;
    MembersOf(processes, g.pgid);
    var j: nat :| j < |t.members| && t.members[j] == p;
    PairIsUnder(processes, g, rules, i, j);
    h, c := Earliest(t, g, rules, i, j);
  }

  lemma {:induction false} Earliest(t: Table, g: Group, rules: Rules, i: nat, j: nat) returns (h: nat, c: nat)
    requires i < |g.pids| && j < |t.members| && IsPair(t, g, rules, i, j)
    ensures FirstPair(t, g, rules, h, c)
    decreases i, j
  {
    if a, b: nat :| 0 <= a < i && b < |t.members| && IsPair(t, g, rules, a, b) {
      h, c := Earliest(t, g, rules, a, b);
    } else if b: nat :| b < j && IsPair(t, g, rules, i, b) {
      h, c := Earliest(t, g, rules, i, b);
    } else {
      h, c := i, j;
    }
  }
}
