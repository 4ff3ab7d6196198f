/** Which process groups that hold a conflicting Host may be recognised, from one snapshot of the process
    table (agent/codex_host_conflict.go).  Parent links may be missing, cyclic or nonsense; what a command
    line says about a process is a parameter. */
module ProcessAncestry {
  import opened Json

  /** The `n`-th ancestor along positive parent links that do not lead back to the process itself. */
  function Ancestor(parents: map<int, int>, pid: int, n: nat): (a: Option<int>)
    decreases n
  {
    if pid <= 0 then None
    else if n == 0 then Some(pid)
    else if pid in parents && parents[pid] > 0 && parents[pid] != pid then Ancestor(parents, parents[pid], n - 1)
    else None
  }

  /** Some ancestor, the process itself included, is among those named. */
  ghost predicate Descends(pid: int, parents: map<int, int>, ancestors: set<int>) {
    exists n: nat :: Reaches(pid, parents, ancestors, n)
  }

  predicate Reaches(pid: int, parents: map<int, int>, ancestors: set<int>, n: nat) {
    Ancestor(parents, pid, n).Some? && Ancestor(parents, pid, n).value in ancestors
  }

  predicate Linked(parents: map<int, int>, pid: int) {
    pid > 0 && pid in parents && parents[pid] > 0 && parents[pid] != pid
  }

  /** A process that is not named descends exactly if its parent does. */
  lemma {:induction false} DescendsByParent(pid: int, parents: map<int, int>, ancestors: set<int>)
    requires pid > 0 && pid !in ancestors
    ensures Descends(pid, parents, ancestors) <==> Linked(parents, pid) && Descends(parents[pid], parents, ancestors)
  {
    if Descends(pid, parents, ancestors) {
      var n: nat :| Reaches(pid, parents, ancestors, n);
      assert n > 0;
      assert Reaches(parents[pid], parents, ancestors, n - 1);
    }
    if Linked(parents, pid) && Descends(parents[pid], parents, ancestors) {
      var n: nat :| Reaches(parents[pid], parents, ancestors, n);
      assert Reaches(pid, parents, ancestors, n + 1);
    }
  }

  /** A line of ancestors: each is the recorded parent of the one before, none is its own parent, and all have
      positive numbers. */
  ghost predicate Line(parents: map<int, int>, line: seq<int>) {
    && line != [] && (forall i :: 0 <= i < |line| ==> line[i] > 0)
    && forall i :: 0 <= i < |line| - 1 ==> line[i] in parents && parents[line[i]] == line[i + 1] != line[i]
  }

  /** Descent is reachability: a line of ancestors leads from the process to one that is named. */
  lemma {:induction false} DescendsByLine(pid: int, parents: map<int, int>, ancestors: set<int>)
    ensures Descends(pid, parents, ancestors) <==>
              exists line :: Line(parents, line) && line[0] == pid && line[|line| - 1] in ancestors
  {
    if Descends(pid, parents, ancestors) {
      var n: nat :| Reaches(pid, parents, ancestors, n);
      var line := LineTo(pid, parents, n);
    }
    forall line | Line(parents, line) && line[0] == pid && line[|line| - 1] in ancestors
      ensures Descends(pid, parents, ancestors)
    {
      LineReaches(parents, line);
      assert Reaches(pid, parents, ancestors, |line| - 1);
    }
  }

  lemma {:induction false} LineTo(pid: int, parents: map<int, int>, n: nat) returns (line: seq<int>)
    requires Ancestor(parents, pid, n).Some?
    ensures Line(parents, line) && line[0] == pid && line[|line| - 1] == Ancestor(parents, pid, n).value
    decreases n
  {
    if n == 0 {
      line := [pid];
    } else {
      var rest := LineTo(parents[pid], parents, n - 1);
      line := [pid] + rest;
    }
  }

  lemma {:induction false} LineReaches(parents: map<int, int>, line: seq<int>)
    requires Line(parents, line)
    ensures Ancestor(parents, line[0], |line| - 1) == Some(line[|line| - 1])
    decreases |line|
  {
    if |line| > 1 {
      assert line[1..][0] == line[1];
      forall i | 0 <= i < |line| - 2 ensures line[1..][i] in parents && parents[line[1..][i]] == line[1..][i + 1] != line[1..][i] {
        assert line[1..][i] == line[i + 1] && line[1..][i + 1] == line[i + 2];
      }
      LineReaches(parents, line[1..]);
    }
  }

  /** From a set that parent links do not leave, nothing outside is reached. */
  lemma {:induction false} ClosedNeverReaches(region: set<int>, pid: int, parents: map<int, int>, ancestors: set<int>, n: nat)
    requires region !! ancestors && pid in region
    requires forall p :: p in region && Linked(parents, p) ==> parents[p] in region
    ensures !Reaches(pid, parents, ancestors, n)
    decreases n
  {
    if n > 0 && Linked(parents, pid) {
      ClosedNeverReaches(region, parents[pid], parents, ancestors, n - 1);
    }
  }

  /** The walk up the tree ends on every map of parents, cyclic ones included, and tells exactly whether a
      named ancestor is reachable. */
  method DescendsFrom(start: int, parents: map<int, int>, ancestors: set<int>) returns (found: bool)
    ensures found <==> Descends(start, parents, ancestors)
  {
    var pid, visited := start, {};
    while pid > 0
      invariant Descends(start, parents, ancestors) <==> Descends(pid, parents, ancestors)
      invariant visited <= parents.Keys && visited !! ancestors
      invariant forall p :: p in visited && Linked(parents, p) ==> parents[p] == pid || parents[p] in visited
      decreases parents.Keys - visited
    {
      if pid in ancestors {
        assert Reaches(pid, parents, ancestors, 0);
        return true;
      }
      DescendsByParent(pid, parents, ancestors);
      if pid in visited {
        forall n: nat ensures !Reaches(pid, parents, ancestors, n) {
          ClosedNeverReaches(visited, pid, parents, ancestors, n);
        }
        return false;
      }
      if pid !in parents || parents[pid] <= 0 || parents[pid] == pid {
        return false;
      }
      visited := visited + {pid};
      pid := parents[pid];
    }
    return false;
  }

  // ---- Classifying a group ----

  /** A row of the process table; `command` stands for executable, command line and arguments. */
  datatype Process = Process(pid: int, ppid: int, uid: nat, pgid: int, command: Name)

  datatype Group = Group(pgid: int, uid: nat, pids: seq<int>)

  /** What the command of a process says: the home of an official daemon, a Host inside the app, the root
      of the app. */
  datatype Rules = Rules(home: Process -> Option<Name>, privateHost: Process -> bool, appRoot: Process -> bool)

  datatype Target = Unknown | OfficialDaemon(host: int, daemonHome: Name) | AppPrivate(host: int, app: int)

  /** The snapshot as the classification reads it; of rows with the same pid the last counts. */
  datatype Table = Table(byPid: map<int, Process>, parents: map<int, int>, members: seq<Process>)

  function Index(processes: seq<Process>, pgid: int): Table {
    if processes == [] then Table(map[], map[], [])
    else
      var n := |processes| - 1;
      var t := Index(processes[..n], pgid);
      var p := processes[n];
      Table(t.byPid[p.pid := p], t.parents[p.pid := p.ppid], if p.pgid == pgid then t.members + [p] else t.members)
  }

  /** Row `i` is the last one with this pid. */
  predicate LastRow(processes: seq<Process>, i: int, pid: int) {
    0 <= i < |processes| && processes[i].pid == pid && forall j :: i < j < |processes| ==> processes[j].pid != pid
  }

  /** Each pid of the snapshot stands for its last row, and its parent link leads to that row's parent; there are
      no other links. */
  lemma {:induction false} IndexExactly(processes: seq<Process>, pgid: int, pid: int)
    ensures var t := Index(processes, pgid);
            && (pid in t.byPid <==> exists i :: LastRow(processes, i, pid)) && (pid in t.parents <==> pid in t.byPid)
            && forall i :: LastRow(processes, i, pid) ==> t.byPid[pid] == processes[i] && t.parents[pid] == processes[i].ppid
  {
    if processes != [] {
      var n := |processes| - 1;
      IndexExactly(processes[..n], pgid, pid);
      if processes[n].pid == pid {
        assert LastRow(processes, n, pid);
      }
      forall i | LastRow(processes[..n], i, pid) && processes[n].pid != pid ensures LastRow(processes, i, pid) {
      }
      forall i | LastRow(processes, i, pid) && processes[n].pid != pid ensures LastRow(processes[..n], i, pid) {
      }
    }
  }

  /** The members are the rows of the group, in the order of the snapshot. */
  lemma {:induction false} MembersInOrder(processes: seq<Process>, pgid: int) returns (rows: seq<nat>)
    ensures RowsOf(processes, pgid, Index(processes, pgid).members, rows)
  {
    if processes == [] {
      rows := [];
    } else {
      var n := |processes| - 1;
      var less := MembersInOrder(processes[..n], pgid);
      rows := OneMoreRow(processes[..n], pgid, Index(processes[..n], pgid).members, less, processes[n]);
      assert processes == processes[..n] + [processes[n]];
    }
  }

  /** `m` is the rows of the group in order; `rows` says where they stand. */
  ghost predicate RowsOf(processes: seq<Process>, pgid: int, m: seq<Process>, rows: seq<nat>) {
    && |rows| == |m| && (forall j, k :: 0 <= j < k < |rows| ==> rows[j] < rows[k])
    && (forall k :: 0 <= k < |rows| ==> rows[k] < |processes| && m[k] == processes[rows[k]] && m[k].pgid == pgid)
    && (forall i :: 0 <= i < |processes| && processes[i].pgid == pgid ==> i in rows)
  }

  lemma {:induction false} OneMoreRow(processes: seq<Process>, pgid: int, m: seq<Process>, rows: seq<nat>, p: Process) returns (more: seq<nat>)
    requires RowsOf(processes, pgid, m, rows)
    ensures RowsOf(processes + [p], pgid, if p.pgid == pgid then m + [p] else m, more)
  {
    var n := |processes|;
    more := if p.pgid == pgid then rows + [n] else rows;
    forall i | 0 <= i <= n && (processes + [p])[i].pgid == pgid ensures i in more {
      if i == n {
        assert more[|more| - 1] == n;
      } else {
        assert i in rows;
      }
    }
  }

  /** Every member of the group belongs to the user and descends from the root. */
  ghost predicate OneTree(t: Table, uid: nat, root: int) {
    forall i :: 0 <= i < |t.members| ==>
      t.members[i].uid == uid && (t.members[i].pid == root || Descends(t.members[i].pid, t.parents, {root}))
  }

  /** The same for the daemon's tree, which does not except the root row. */
  ghost predicate DaemonTree(t: Table, uid: nat, root: int) {
    forall i :: 0 <= i < |t.members| ==> t.members[i].uid == uid && Descends(t.members[i].pid, t.parents, {root})
  }

  ghost predicate IsDaemon(t: Table, g: Group, rules: Rules, i: nat)
    requires i < |g.pids|
  {
    && g.pids[i] in t.byPid && rules.home(t.byPid[g.pids[i]]).Some?
    && DaemonTree(t, t.byPid[g.pids[i]].uid, g.pids[i])
  }

  predicate AllFound(t: Table, g: Group, n: nat)
    requires n <= |g.pids|
  {
    forall i :: 0 <= i < n ==> g.pids[i] in t.byPid
  }

  /** A Host inside the app under a root of the app in the same group. */
  ghost predicate IsPair(t: Table, g: Group, rules: Rules, h: nat, c: nat)
    requires h < |g.pids| && c < |t.members|
  {
    && g.pids[h] in t.byPid && rules.privateHost(t.byPid[g.pids[h]])
    && rules.appRoot(t.members[c]) && t.members[c].uid == g.uid && t.members[c].pgid == g.pgid
    && Descends(g.pids[h], t.parents, {t.members[c].pid})
  }

  /** No pair before the place (h, c), hosts first. */
  ghost predicate NoPairBefore(t: Table, g: Group, rules: Rules, h: nat, c: nat)
    requires h <= |g.pids| && c <= |t.members|
  {
    && (forall i, j :: 0 <= i < h && 0 <= j < |t.members| ==> !IsPair(t, g, rules, i, j))
    && (h < |g.pids| ==> forall j :: 0 <= j < c ==> !IsPair(t, g, rules, h, j))
  }

  ghost predicate FirstPair(t: Table, g: Group, rules: Rules, h: nat, c: nat) {
    h < |g.pids| && c < |t.members| && IsPair(t, g, rules, h, c) && NoPairBefore(t, g, rules, h, c)
  }

  method Describes(processes: seq<Process>, pgid: int) returns (t: Table)
    ensures t == Index(processes, pgid)
  {
    var byPid, parents, members := map[], map[], [];
    for n := 0 to |processes|
      invariant Table(byPid, parents, members) == Index(processes[..n], pgid)
    {
      assert processes[..n + 1][..n] == processes[..n];
      var p := processes[n];
      byPid := byPid[p.pid := p];
      parents := parents[p.pid := p.ppid];
      if p.pgid == pgid {
        members := members + [p];
      }
    }
    assert processes[..|processes|] == processes;
    t := Table(byPid, parents, members);
  }

  method TrustsDaemonTree(t: Table, uid: nat, root: int) returns (ok: bool)
    ensures ok <==> DaemonTree(t, uid, root)
  {
    for i := 0 to |t.members|
      invariant forall k :: 0 <= k < i ==> t.members[k].uid == uid && Descends(t.members[k].pid, t.parents, {root})
    {
      var below := DescendsFrom(t.members[i].pid, t.parents, {root});
      if t.members[i].uid != uid || !below {
        return false;
      }
    }
    return true;
  }

  method TrustsAppTree(t: Table, uid: nat, root: int) returns (ok: bool)
    ensures ok <==> OneTree(t, uid, root)
  {
    for i := 0 to |t.members|
      invariant forall k :: 0 <= k < i ==>
                  t.members[k].uid == uid && (t.members[k].pid == root || Descends(t.members[k].pid, t.parents, {root}))
    {
      var below := DescendsFrom(t.members[i].pid, t.parents, {root});
      if t.members[i].uid != uid || (t.members[i].pid != root && !below) {
        return false;
      }
    }
    return true;
  }

  /** Looks for an official daemon; `missing` reports a listed process that the snapshot does not have. */
  method FindDaemon(t: Table, g: Group, rules: Rules) returns (at: Option<nat>, missing: bool)
    ensures at.Some? ==> at.value < |g.pids| && AllFound(t, g, at.value + 1) && IsDaemon(t, g, rules, at.value) && !missing
    ensures at.Some? ==> forall i :: 0 <= i < at.value ==> !IsDaemon(t, g, rules, i)
    ensures at.None? && !missing ==> AllFound(t, g, |g.pids|) && forall i :: 0 <= i < |g.pids| ==> !IsDaemon(t, g, rules, i)
    ensures missing ==> exists n :: 0 <= n < |g.pids| && g.pids[n] !in t.byPid && forall i :: 0 <= i < n ==> !IsDaemon(t, g, rules, i)
  {
    for n := 0 to |g.pids|
      invariant AllFound(t, g, n) && forall i :: 0 <= i < n ==> !IsDaemon(t, g, rules, i)
    {
      if g.pids[n] !in t.byPid {
        return None, true;
      }
      var p := t.byPid[g.pids[n]];
      if rules.home(p).Some? {
        var trusted := TrustsDaemonTree(t, p.uid, g.pids[n]);
        if trusted {
          return Some(n), false;
        }
      }
    }
    return None, false;
  }

  /** Looks for the first Host inside the app together with its root. */
  method FindPair(t: Table, g: Group, rules: Rules) returns (pair: Option<(nat, nat)>)
    ensures pair.Some? ==> FirstPair(t, g, rules, pair.value.0, pair.value.1)
    ensures pair.None? ==> NoPairBefore(t, g, rules, |g.pids|, 0)
  {
    for h := 0 to |g.pids|
      invariant NoPairBefore(t, g, rules, h, 0)
    {
      if g.pids[h] in t.byPid && rules.privateHost(t.byPid[g.pids[h]]) {
        for c := 0 to |t.members|
          invariant NoPairBefore(t, g, rules, h, c)
        {
          var m := t.members[c];
          if rules.appRoot(m) && m.uid == g.uid && m.pgid == g.pgid {
            var below := DescendsFrom(g.pids[h], t.parents, {m.pid});
            if below {
              return Some((h, c));
            }
          }
        }
      }
    }
    return None;
  }

  /** The group holds something to classify, and no listed process is missing before a daemon is found. */
  ghost predicate FirstDaemon(t: Table, g: Group, rules: Rules, i: nat)
    requires i < |g.pids|
  {
    t.members != [] && AllFound(t, g, i) && IsDaemon(t, g, rules, i) && forall j :: 0 <= j < i ==> !IsDaemon(t, g, rules, j)
  }

  ghost predicate NoDaemon(t: Table, g: Group, rules: Rules) {
    t.members != [] && AllFound(t, g, |g.pids|) && forall i :: 0 <= i < |g.pids| ==> !IsDaemon(t, g, rules, i)
  }

  /** Every process of the group in the snapshot, not only the listed ones, belongs to the user and descends
      from the root. */
  ghost predicate WholeGroup(processes: seq<Process>, pgid: int, parents: map<int, int>, uid: nat, root: int) {
    forall p :: p in processes && p.pgid == pgid ==> p.uid == uid && (p.pid == root || Descends(p.pid, parents, {root}))
  }

  lemma {:induction false} MembersAreTheGroup(processes: seq<Process>, pgid: int, p: Process)
    ensures p in Index(processes, pgid).members <==> p in processes && p.pgid == pgid
  {
    if processes != [] {
      var n := |processes| - 1;
      MembersAreTheGroup(processes[..n], pgid, p);
      assert processes == processes[..n] + [processes[n]];
    }
  }

  lemma {:induction false} TreeIsWholeGroup(processes: seq<Process>, pgid: int, uid: nat, root: int)
    ensures var t := Index(processes, pgid);
            && (OneTree(t, uid, root) <==> WholeGroup(processes, pgid, t.parents, uid, root))
            && (DaemonTree(t, uid, root) ==> WholeGroup(processes, pgid, t.parents, uid, root))
  {
    var t := Index(processes, pgid);
    forall p ensures p in t.members <==> p in processes && p.pgid == pgid {
      MembersAreTheGroup(processes, pgid, p);
    }
  }

  ghost predicate IsOfficial(t: Table, g: Group, rules: Rules, host: int, home: Name) {
    exists i :: 0 <= i < |g.pids| && FirstDaemon(t, g, rules, i) && host == g.pids[i] && Some(home) == rules.home(t.byPid[host])
  }

  ghost predicate IsAppPrivate(t: Table, g: Group, rules: Rules, host: int, app: int) {
    && NoDaemon(t, g, rules)
    && exists h: nat, c: nat :: FirstPair(t, g, rules, h, c) && OneTree(t, g.uid, t.members[c].pid)
                                && host == g.pids[h] && app == t.members[c].pid
  }

  /** Exactly when a group is recognised, and as what; a recognised group is one user's tree under its root. */
  method Classify(processes: seq<Process>, g: Group, rules: Rules) returns (target: Target)
    ensures forall host, home :: target == OfficialDaemon(host, home) <==> IsOfficial(Index(processes, g.pgid), g, rules, host, home)
    ensures forall host, app :: target == AppPrivate(host, app) <==> IsAppPrivate(Index(processes, g.pgid), g, rules, host, app)
    ensures var t := Index(processes, g.pgid);
            match target
            case Unknown => true
            case OfficialDaemon(host, _) => host in t.byPid && WholeGroup(processes, g.pgid, t.parents, t.byPid[host].uid, host)
            case AppPrivate(_, app) => WholeGroup(processes, g.pgid, t.parents, g.uid, app)
  {
    var t := Describes(processes, g.pgid);
    if t.members == [] {
      return Unknown;
    }
    var at, missing := FindDaemon(t, g, rules);
    if missing {
      return Unknown;
    }
    if at.Some? {
      var host := g.pids[at.value];
      TreeIsWholeGroup(processes, g.pgid, t.byPid[host].uid, host);
      assert FirstDaemon(t, g, rules, at.value);
      return OfficialDaemon(host, rules.home(t.byPid[host]).value);
    }
    var pair := FindPair(t, g, rules);
    if pair.None? {
      return Unknown;
    }
    var app := t.members[pair.value.1].pid;
    var whole := TrustsAppTree(t, g.uid, app);
    TreeIsWholeGroup(processes, g.pgid, g.uid, app);
    return if whole then AppPrivate(g.pids[pair.value.0], app) else Unknown;
  }
}
