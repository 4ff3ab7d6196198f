/** The patch language of the Desktop state stream, as a pure function on JSON values: add, replace and
    remove of sections 4.1 to 4.3 of RFC 6902, addressed by path arrays.  Root remove is rejected and
    there is no "-" index (agent/codex_desktop_patch.go). */
module JsonPatch {
  import opened Json

  /** One path element as decoded JSON delivers it.  `Number` is a textual number together with what
      integer conversion makes of it. */
  datatype Part =
    | Key(name: Name)
    | Int(i: int)
    | Float(r: real)
    | Number(parsed: Option<int>)
    | Other

  datatype Op = Add | Replace | Remove | Unsupported

  datatype Patch = Patch(op: Op, path: seq<Part>, value: Json)

  const MAX_INT: int := 0x7fff_ffff_ffff_ffff

  /** A path element as an integer, if it is one. */
  function Integer(part: Part): (r: Option<int>) {
    match part
    case Int(i) => Some(i)
    case Float(x) =>
      if 0.0 <= x <= MAX_INT as real && x == x.Floor as real then Some(x.Floor) else None
    case Number(p) => p
    case _ => None
  }

  /** The array position a path element names; `allowEnd` admits the position after the last item. */
  function Index(part: Part, length: nat, allowEnd: bool): (r: Option<nat>)
    ensures r.Some? ==> r.value <= length && (!allowEnd ==> r.value < length)
  {
    var limit := if allowEnd then length else length - 1;
    match Integer(part)
    case Some(i) => if 0 <= i <= limit then Some(i) else None
    case None => None
  }

  /** The existing child a path element selects. */
  function Child(node: Json, part: Part): (r: Option<Json>)
    ensures r.Some? ==> r.value < node
  {
    match node
    case Obj(m) => if part.Key? && part.name in m then Some(m[part.name]) else None
    case Arr(s) =>
      var i := Index(part, |s|, false);
      if i.Some? then Some(s[i.value]) else None
    case _ => None
  }

  function WithChild(node: Json, part: Part, child: Json): (r: Json)
    requires Child(node, part).Some?
  {
    match node
    case Obj(m) => Obj(m[part.name := child])
    case Arr(s) => Arr(s[Index(part, |s|, false).value := child])
  }

  /** The operation proper, at the container that holds the target. */
  function ApplyLeaf(node: Json, part: Part, p: Patch): (r: Option<Json>) {
    match node
    case Obj(m) =>
      if !part.Key? then None
      else if p.op.Add? then Some(Obj(m[part.name := p.value]))
      else if p.op.Replace? && part.name in m then Some(Obj(m[part.name := p.value]))
      else if p.op.Remove? && part.name in m then Some(Obj(m - {part.name}))
      else None
    case Arr(s) =>
      var i := Index(part, |s|, p.op.Add?);
      if i.None? then None
      else if p.op.Add? then Some(Arr(Insert(s, i.value, p.value)))
      else if p.op.Replace? then Some(Arr(s[i.value := p.value]))
      else if p.op.Remove? then Some(Arr(Delete(s, i.value)))
      else None
    case _ => None
  }

  function ApplyAt(node: Json, path: seq<Part>, p: Patch): (r: Option<Json>)
    requires path != []
    decreases |path|
  {
    if |path| == 1 then ApplyLeaf(node, path[0], p)
    else
      match Child(node, path[0])
      case None => None
      case Some(child) =>
        match ApplyAt(child, path[1..], p)
        case None => None
        case Some(next) => Some(WithChild(node, path[0], next))
  }

  function Apply(root: Json, p: Patch): (r: Option<Json>) {
    if p.path == [] then
      if (p.op.Add? || p.op.Replace?) && p.value.Obj? then Some(p.value) else None
    else ApplyAt(root, p.path, p)
  }

  /** A patch set: all patches in order, or nothing. */
  function ApplyAll(root: Json, ps: seq<Patch>): (r: Option<Json>)
    decreases |ps|
  {
    if ps == [] then Some(root)
    else
      match Apply(root, ps[0])
      case None => None
      case Some(next) => ApplyAll(next, ps[1..])
  }

  /** What a document holds at a path of existing members. */
  function Lookup(node: Json, path: seq<Part>): (r: Option<Json>)
    decreases |path|
  {
    if path == [] then Some(node)
    else
      match Child(node, path[0])
      case None => None
      case Some(child) => Lookup(child, path[1..])
  }

  // ---- Sequential composition ----

  /** Applying one patch set and then another is applying their concatenation. */
  lemma {:induction false} ApplyAllConcat(root: Json, ps: seq<Patch>, qs: seq<Patch>)
    ensures ApplyAll(root, ps + qs) ==
            (match ApplyAll(root, ps) case None => None case Some(mid) => ApplyAll(mid, qs))
    decreases |ps|
  {
    if ps == [] {
      assert ps + qs == qs;
    } else {
      assert (ps + qs)[0] == ps[0] && (ps + qs)[1..] == ps[1..] + qs;
      match Apply(root, ps[0])
      case None =>
      case Some(next) => ApplyAllConcat(next, ps[1..], qs);
    }
  }

  /** One more patch of a set that has been applied up to `i`. */
  lemma {:induction false} ApplyAllStep(root: Json, ps: seq<Patch>, i: nat)
    requires i < |ps| && ApplyAll(root, ps[..i]).Some?
    ensures ApplyAll(root, ps[..i + 1]) == Apply(ApplyAll(root, ps[..i]).value, ps[i])
    ensures Apply(ApplyAll(root, ps[..i]).value, ps[i]).None? ==> ApplyAll(root, ps).None?
  {
    ApplyAllConcat(root, ps[..i], [ps[i]]);
    ApplyAllConcat(root, ps[..i], ps[i..]);
    assert ps[..i + 1] == ps[..i] + [ps[i]] && ps == ps[..i] + ps[i..];
    assert [ps[i]][1..] == [];
  }

  /** A patch keeps the kind of the container it works below, so an object root stays an object: the
      final root check of a patch set can never fail. */
  lemma {:induction false} RootStaysObject(root: Json, ps: seq<Patch>)
    requires root.Obj?
    ensures ApplyAll(root, ps).Some? ==> ApplyAll(root, ps).value.Obj?
    decreases |ps|
  {
    if ps != [] {
      match Apply(root, ps[0])
      case None =>
      case Some(next) => RootStaysObject(next, ps[1..]);
    }
  }

  // ---- What a successful patch does ----

  /** The path a successful add or replace leaves readable.  Only an array insertion past the last
      item names a position that did not exist before. */
  lemma {:induction false} ReadBack(node: Json, path: seq<Part>, p: Patch)
    requires path != [] && (p.op.Add? || p.op.Replace?)
    requires ApplyAt(node, path, p).Some?
    ensures Lookup(ApplyAt(node, path, p).value, path) == Some(p.value)
    decreases |path|
  {
    var r := ApplyAt(node, path, p).value;
    if |path| == 1 {
      assert path[1..] == [];
      assert Child(r, path[0]) == Some(p.value);
    } else {
      var child := Child(node, path[0]).value;
      ReadBack(child, path[1..], p);
      assert Child(r, path[0]) == ApplyAt(child, path[1..], p);
    }
  }

  /** The operation that undoes `p` on `node`, at the same path. */
  function UndoAt(node: Json, path: seq<Part>, p: Patch): (r: Patch)
    requires path != [] && ApplyAt(node, path, p).Some?
    decreases |path|
  {
    if |path| == 1 then
      match node
      case Obj(m) =>
        if path[0].name !in m then p.(op := Remove)
        else p.(op := if p.op.Remove? then Add else Replace, value := m[path[0].name])
      case Arr(s) =>
        if p.op.Add? then p.(op := Remove)
        else
          p.(op := if p.op.Remove? then Add else Replace,
             value := s[Index(path[0], |s|, false).value])
    else UndoAt(Child(node, path[0]).value, path[1..], p)
  }

  lemma {:induction false} UndoAtRestores(node: Json, path: seq<Part>, p: Patch)
    requires path != [] && ApplyAt(node, path, p).Some?
    ensures UndoAt(node, path, p).path == p.path
    ensures ApplyAt(ApplyAt(node, path, p).value, path, UndoAt(node, path, p)) == Some(node)
    decreases |path|
  {
    if |path| == 1 {
      UndoLeafRestores(node, path[0], path, p);
    } else {
      var child := Child(node, path[0]).value;
      UndoAtRestores(child, path[1..], p);
      var next := ApplyAt(child, path[1..], p).value;
      var r := WithChild(node, path[0], next);
      assert Child(r, path[0]) == Some(next);
      assert WithChild(r, path[0], child) == node by {
        match node
        case Obj(m) => assert m[path[0].name := next][path[0].name := child] == m;
        case Arr(s) =>
          var i := Index(path[0], |s|, false).value;
          assert s[i := next][i := child] == s;
      }
    }
  }

  lemma UndoLeafRestores(node: Json, part: Part, path: seq<Part>, p: Patch)
    requires path == [part] && ApplyAt(node, path, p).Some?
    ensures ApplyLeaf(ApplyLeaf(node, part, p).value, part, UndoAt(node, path, p)) == Some(node)
  {
    match node
    case Obj(m) =>
      var k := part.name;
      if k in m {
        assert m[k := p.value][k := m[k]] == m;
        assert (m - {k})[k := m[k]] == m;
      } else {
        assert m[k := p.value] - {k} == m;
      }
    case Arr(s) =>
      var i := Index(part, |s|, p.op.Add?).value;
      if p.op.Add? {
        InsertDelete(s, i, p.value);
        assert Index(part, |s| + 1, false) == Some(i);
      } else if p.op.Remove? {
        DeleteInsert(s, i);
        assert Index(part, |s| - 1, true) == Some(i);
      } else {
        assert s[i := p.value][i := s[i]] == s;
      }
  }

  function Undo(root: Json, p: Patch): (r: Patch)
    requires root.Obj? && Apply(root, p).Some?
  {
    if p.path == [] then Patch(Replace, [], root) else UndoAt(root, p.path, p)
  }

  /** The patch set that undoes a patch set: the single undos, last one first. */
  function UndoAll(root: Json, ps: seq<Patch>): (r: seq<Patch>)
    requires root.Obj? && ApplyAll(root, ps).Some?
    decreases |ps|
  {
    if ps == [] then []
    else
      var next := Apply(root, ps[0]).value;
      UndoAll(next, ps[1..]) + [Undo(root, ps[0])]
  }

  /** Every successful patch set is exactly undone by another patch set: add, replace and remove lose
      nothing and touch nothing but what they name. */
  lemma {:induction false} UndoAllRestores(root: Json, ps: seq<Patch>)
    requires root.Obj? && ApplyAll(root, ps).Some?
    ensures ApplyAll(ApplyAll(root, ps).value, UndoAll(root, ps)) == Some(root)
    decreases |ps|
  {
    if ps != [] {
      var p := ps[0];
      var next := Apply(root, p).value;
      UndoAllRestores(next, ps[1..]);
      ApplyAllConcat(ApplyAll(root, ps).value, UndoAll(next, ps[1..]), [Undo(root, p)]);
      if p.path != [] {
        UndoAtRestores(root, p.path, p);
      }
      assert Apply(next, Undo(root, p)) == Some(root);
      assert [Undo(root, p)][1..] == [];
    }
  }

  // ---- What a successful patch leaves alone ----

  /** Two path elements name the same member of a container. */
  predicate SameMember(node: Json, a: Part, b: Part) {
    if node.Arr? then Integer(a).Some? && Integer(a) == Integer(b) else a == b
  }

  /** `q` leaves the path of the patch at some container it passes.  A read at the very index of an
      array removal counts: it sees the item that moved up. */
  predicate Beside(node: Json, path: seq<Part>, p: Patch, q: seq<Part>)
    requires path != [] && ApplyAt(node, path, p).Some?
    decreases |path|
  {
    && q != []
    && if |path| == 1 then !SameMember(node, path[0], q[0]) || (node.Arr? && p.op.Remove?)
       else SameMember(node, path[0], q[0]) ==> Beside(Child(node, path[0]).value, path[1..], p, q[1..])
  }

  /** Where a read beside the patch finds its answer in the original document: items behind an
      insertion or a deletion have moved by one, everything else stays where it was. */
  function Origin(node: Json, path: seq<Part>, p: Patch, q: seq<Part>): (r: seq<Part>)
    requires path != [] && ApplyAt(node, path, p).Some? && q != []
    decreases |path|
  {
    if |path| > 1 then
      if SameMember(node, path[0], q[0]) && |q| > 1 then
        [q[0]] + Origin(Child(node, path[0]).value, path[1..], p, q[1..])
      else q
    else if node.Obj? || p.op.Replace? then q
    else
      var i := Index(path[0], |node.items|, p.op.Add?).value;
      var k := Integer(q[0]);
      if k.None? || k.value < i then q
      else [Int(if p.op.Add? then k.value - 1 else k.value + 1)] + q[1..]
  }

  /** Every read beside the path of a patch sees the original document, at its former position. */
  lemma {:induction false} ReadElsewhere(node: Json, path: seq<Part>, p: Patch, q: seq<Part>)
    requires path != [] && ApplyAt(node, path, p).Some?
    requires Beside(node, path, p, q)
    ensures Lookup(ApplyAt(node, path, p).value, q) == Lookup(node, Origin(node, path, p, q))
    decreases |path|
  {
    var r := ApplyAt(node, path, p).value;
    var o := Origin(node, path, p, q);
    if |path| > 1 && SameMember(node, path[0], q[0]) {
      var child := Child(node, path[0]).value;
      ReadElsewhere(child, path[1..], p, q[1..]);
      assert o[0] == q[0] && o[1..] == Origin(child, path[1..], p, q[1..]);
      assert Child(node, q[0]) == Some(child);
      assert Child(r, q[0]) == ApplyAt(child, path[1..], p);
    } else {
      assert o[1..] == q[1..];
      assert Child(r, q[0]) == Child(node, o[0]);
    }
  }
}
