/** The in-place patch engine: containers are heap objects that patches mutate, and a patch set works on
    a deep clone of the baseline (agent/codex_desktop_patch.go).  Each method is proved against the
    pure functions of JsonPatch.  `Repr` is the set of containers a node may reach and `doc` the
    document it stands for. */
module PatchEngine {
  import opened Json
  import opened JsonPatch

  /** A decoded value: a leaf, or a reference to a mutable container. */
  datatype Value = Leaf(atom: Json) | Ref(node: Node)

  datatype Body = Fields(fields: map<Name, Value>) | Items(items: seq<Value>)

  /** A patch whose value is itself a tree of containers. */
  datatype HeapPatch = HeapPatch(op: Op, path: seq<Part>, value: Value)

  /** Containers a value may reach. */
  ghost function Foot(v: Value): set<Node>
    reads if v.Ref? then {v.node} else {}
  {
    if v.Ref? then v.node.Repr else {}
  }

  /** The document a value stands for. */
  ghost function Denote(v: Value): Json
    reads if v.Ref? then {v.node} else {}
  {
    if v.Ref? then v.node.doc else v.atom
  }

  ghost predicate Good(v: Value)
    reads if v.Ref? then {v.node} + v.node.Repr else {}
    decreases Foot(v), 1
  {
    if v.Ref? then v.node.Valid() else IsAtom(v.atom)
  }

  ghost function Pure(p: HeapPatch): Patch
    reads if p.value.Ref? then {p.value.node} else {}
  {
    Patch(p.op, p.path, Denote(p.value))
  }

  /** The value is a tree inside the territory `t`. */
  ghost predicate Within(v: Value, t: set<Node>)
    reads t
  {
    v.Ref? ==> v.node in t && v.node.Repr <= t
  }

  /** Disjoint trees inside `t` that stand for the members `d`; the key `hole` is not looked at. */
  ghost predicate Grove(t: set<Node>, m: map<Name, Value>, d: map<Name, Json>, hole: Option<Name>)
    reads t
    decreases t, 2
  {
    && d.Keys == m.Keys
    && (forall k :: k in m && hole != Some(k) ==> Within(m[k], t) && Good(m[k]) && d[k] == Denote(m[k]))
    && (forall k, l :: k in m && l in m && k != l && hole != Some(k) && hole != Some(l) ==>
          Foot(m[k]) !! Foot(m[l]))
  }

  /** Disjoint trees inside `t` that stand for the items `d`; the index `hole` is not looked at. */
  ghost predicate Forest(t: set<Node>, s: seq<Value>, d: seq<Json>, hole: int)
    reads t
    decreases t, 2
  {
    && |d| == |s|
    && (forall i :: 0 <= i < |s| && i != hole ==> Within(s[i], t) && Good(s[i]) && d[i] == Denote(s[i]))
    && (forall i, j :: 0 <= i < j < |s| && i != hole && j != hole ==> Foot(s[i]) !! Foot(s[j]))
  }

  class Node {
    var body: Body
    ghost var Repr: set<Node>
    ghost var doc: Json

    ghost predicate Valid()
      reads this, Repr
      decreases Repr, 0
    {
      && this in Repr
      && match body
         case Fields(m) => doc.Obj? && Grove(Repr - {this}, m, doc.fields, None)
         case Items(s) => doc.Arr? && Forest(Repr - {this}, s, doc.items, -1)
    }

    constructor (b: Body, ghost d: Json)
      ensures body == b && doc == d && Repr == {this}
    {
      body, doc := b, d;
      Repr := {this};
    }
  }

  // ---- Tree surgery ----

  lemma GrovePut(t: set<Node>, m: map<Name, Value>, d: map<Name, Json>, k: Name, v: Value)
    requires Grove(t, m, d, Some(k))
    requires Good(v) && Within(v, t)
    requires forall l :: l in m && l != k ==> Foot(m[l]) !! Foot(v)
    ensures Grove(t, m[k := v], d[k := Denote(v)], None)
  {
  }

  lemma GroveGrow(t: set<Node>, u: set<Node>, m: map<Name, Value>, d: map<Name, Json>, hole: Option<Name>)
    requires Grove(t, m, d, hole) && t <= u
    ensures Grove(u, m, d, hole)
  {
  }

  lemma GroveHole(t: set<Node>, m: map<Name, Value>, d: map<Name, Json>, k: Name)
    requires Grove(t, m, d, None)
    ensures Grove(t, m, d, Some(k)) && Grove(t, m - {k}, d - {k}, None)
  {
  }

  lemma ForestPut(t: set<Node>, s: seq<Value>, d: seq<Json>, i: nat, v: Value)
    requires i < |s| && Forest(t, s, d, i)
    requires Good(v) && Within(v, t)
    requires forall l :: 0 <= l < |s| && l != i ==> Foot(s[l]) !! Foot(v)
    ensures Forest(t, s[i := v], d[i := Denote(v)], -1)
  {
  }

  lemma ForestGrow(t: set<Node>, u: set<Node>, s: seq<Value>, d: seq<Json>, hole: int)
    requires Forest(t, s, d, hole) && t <= u
    ensures Forest(u, s, d, hole)
  {
  }

  lemma ForestInsert(t: set<Node>, s: seq<Value>, d: seq<Json>, i: nat, v: Value)
    requires i <= |s| && Forest(t, s, d, -1)
    requires Good(v) && Within(v, t)
    requires forall l :: 0 <= l < |s| ==> Foot(s[l]) !! Foot(v)
    ensures Forest(t, s[..i] + [v] + s[i..], Insert(d, i, Denote(v)), -1)
  {
  }

  lemma ForestDelete(t: set<Node>, s: seq<Value>, d: seq<Json>, i: nat)
    requires i < |s| && Forest(t, s, d, -1)
    ensures Forest(t, s[..i] + s[i + 1..], Delete(d, i), -1)
  {
  }

  /** What a valid node says about its children, spelled out. */
  lemma GroveRoots(t: set<Node>, m: map<Name, Value>, d: map<Name, Json>)
    requires Grove(t, m, d, None)
    ensures forall k :: k in m ==> Within(m[k], t) && Good(m[k]) && d[k] == Denote(m[k])
    ensures forall k :: k in m && m[k].Ref? ==> m[k].node in m[k].node.Repr
    ensures forall k, l :: k in m && l in m && k != l ==> Foot(m[k]) !! Foot(m[l])
  {
  }

  lemma ForestRoots(t: set<Node>, s: seq<Value>, d: seq<Json>)
    requires Forest(t, s, d, -1)
    ensures forall i :: 0 <= i < |s| ==> Within(s[i], t) && Good(s[i]) && d[i] == Denote(s[i])
    ensures forall i :: 0 <= i < |s| && s[i].Ref? ==> s[i].node in s[i].node.Repr
    ensures forall i, j :: 0 <= i < j < |s| ==> Foot(s[i]) !! Foot(s[j])
  {
  }

  /** Deep copy: the same document, none of the old containers. */
  method Clone(v: Value) returns (w: Value)
    requires Good(v)
    ensures Good(w) && Denote(w) == Denote(v) && fresh(Foot(w))
    decreases Foot(v), 2
  {
    match v
    case Leaf(_) => w := v;
    case Ref(n) =>
      match n.body
      case Fields(m) => w := CloneFields(n, m);
      case Items(s) => w := CloneItems(n, s);
  }

  method CloneFields(n: Node, m: map<Name, Value>) returns (w: Value)
    requires n.Valid() && n.body == Fields(m)
    ensures Good(w) && Denote(w) == n.doc && fresh(Foot(w))
    decreases n.Repr, 1
  {
    var copy := new Node(Fields(map[]), Obj(map[]));
    var todo := m.Keys;
    ghost var d := n.doc.fields;
    assert d.Keys == m.Keys;
    while todo != {}
      invariant todo <= m.Keys && fresh(copy.Repr) && copy.Valid() && copy.body.Fields?
      invariant copy.doc == Obj(Done(d, todo))
      decreases todo
    {
      var k :| k in todo;
      CloneField(n, m, copy, k);
      DoneGrows(d, todo, k);
      todo := todo - {k};
    }
    assert Done(d, {}) == d;
    w := Ref(copy);
  }

  /** The members that are no longer to be copied. */
  ghost function Done(d: map<Name, Json>, todo: set<Name>): map<Name, Json> {
    map k | k in d && k !in todo :: d[k]
  }

  lemma DoneGrows(d: map<Name, Json>, todo: set<Name>, k: Name)
    requires k in d && k in todo
    ensures Done(d, todo - {k}) == Done(d, todo)[k := d[k]]
  {
  }

  method CloneField(n: Node, m: map<Name, Value>, copy: Node, k: Name)
    requires n.Valid() && n.body == Fields(m) && k in m
    requires copy.Valid() && copy.body.Fields? && copy.Repr !! n.Repr
    modifies copy
    ensures copy.Valid() && copy.body.Fields? && fresh(copy.Repr - old(copy.Repr))
    ensures k in n.doc.fields && copy.doc == Obj(old(copy.doc.fields)[k := n.doc.fields[k]])
    decreases n.Repr, 0
  {
    assert Within(m[k], n.Repr - {n});
    var child := Clone(m[k]);
    SetField(copy, k, child);
  }

  /** Stores a child of disjoint territory under `k`, whatever `k` held before. */
  method PutField(n: Node, k: Name, child: Value)
    requires n in n.Repr && n.body.Fields? && n.doc.Obj?
    requires Grove(n.Repr - {n}, n.body.fields, n.doc.fields, Some(k))
    requires Good(child) && n !in Foot(child)
    requires forall l :: l in n.body.fields && l != k ==> Foot(n.body.fields[l]) !! Foot(child)
    modifies n
    ensures n.Valid() && n.Repr == old(n.Repr) + old(Foot(child))
    ensures n.body == Fields(old(n.body.fields)[k := child])
    ensures n.doc == Obj(old(n.doc.fields)[k := Denote(child)])
  {
    ghost var t := n.Repr - {n};
    GroveGrow(t, t + Foot(child), n.body.fields, n.doc.fields, Some(k));
    GrovePut(t + Foot(child), n.body.fields, n.doc.fields, k, child);
    n.Repr := n.Repr + Foot(child);
    assert n.Repr - {n} == t + Foot(child);
    n.doc := Obj(n.doc.fields[k := Denote(child)]);
    n.body := Fields(n.body.fields[k := child]);
  }

  method CloneItems(n: Node, s: seq<Value>) returns (w: Value)
    requires n.Valid() && n.body == Items(s)
    ensures Good(w) && Denote(w) == n.doc && fresh(Foot(w))
    decreases n.Repr, 1
  {
    var copy := new Node(Items([]), Arr([]));
    for i := 0 to |s|
      invariant copy.Valid() && fresh(copy.Repr)
      invariant copy.body.Items? && |copy.body.items| == i && copy.doc == Arr(n.doc.items[..i])
    {
      var child := Clone(s[i]);
      InsertItem(copy, i, child);
      assert copy.doc.items == n.doc.items[..i + 1];
    }
    assert n.doc.items[..|s|] == n.doc.items;
    w := Ref(copy);
  }

  method InsertItem(n: Node, i: nat, child: Value)
    requires n.Valid() && n.body.Items? && i <= |n.body.items|
    requires Good(child) && Foot(child) !! n.Repr
    modifies n
    ensures n.Valid() && n.Repr == old(n.Repr) + old(Foot(child))
    ensures n.body.Items? && |n.body.items| == |old(n.body.items)| + 1
    ensures i <= |old(n.doc.items)| && n.doc == Arr(Insert(old(n.doc.items), i, Denote(child)))
  {
    ghost var t := n.Repr - {n};
    var s := n.body.items;
    ForestGrow(t, t + Foot(child), s, n.doc.items, -1);
    ForestInsert(t + Foot(child), s, n.doc.items, i, child);
    n.Repr := n.Repr + Foot(child);
    assert n.Repr - {n} == t + Foot(child);
    n.doc := Arr(Insert(n.doc.items, i, Denote(child)));
    n.body := Items(s[..i] + [child] + s[i..]);
  }

  // ---- Patching in place ----

  method PutItem(n: Node, i: nat, child: Value)
    requires n in n.Repr && n.body.Items? && i < |n.body.items| && n.doc.Arr?
    requires Forest(n.Repr - {n}, n.body.items, n.doc.items, i)
    requires Good(child) && n !in Foot(child)
    requires forall l :: 0 <= l < |n.body.items| && l != i ==> Foot(n.body.items[l]) !! Foot(child)
    modifies n
    ensures n.Valid() && n.Repr == old(n.Repr) + old(Foot(child))
    ensures n.body.Items? && i < |old(n.doc.items)| && n.doc == Arr(old(n.doc.items)[i := Denote(child)])
  {
    ghost var t := n.Repr - {n};
    var s := n.body.items;
    ForestGrow(t, t + Foot(child), s, n.doc.items, i);
    ForestPut(t + Foot(child), s, n.doc.items, i, child);
    n.Repr := n.Repr + Foot(child);
    assert n.Repr - {n} == t + Foot(child);
    n.doc := Arr(n.doc.items[i := Denote(child)]);
    n.body := Items(s[i := child]);
  }

  method RemoveItem(n: Node, i: nat)
    requires n.Valid() && n.body.Items? && i < |n.body.items|
    modifies n
    ensures n.Valid() && n.Repr == old(n.Repr) && n.body.Items?
    ensures i < |old(n.doc.items)| && n.doc == Arr(Delete(old(n.doc.items), i))
  {
    var s := n.body.items;
    ForestDelete(n.Repr - {n}, s, n.doc.items, i);
    n.doc := Arr(Delete(n.doc.items, i));
    n.body := Items(s[..i] + s[i + 1..]);
  }

  method SetField(n: Node, k: Name, child: Value)
    requires n.Valid() && n.body.Fields? && Good(child) && Foot(child) !! n.Repr
    modifies n
    ensures n.Valid() && n.Repr == old(n.Repr) + old(Foot(child)) && n.body.Fields?
    ensures n.doc == Obj(old(n.doc.fields)[k := Denote(child)])
  {
    GroveHole(n.Repr - {n}, n.body.fields, n.doc.fields, k);
    PutField(n, k, child);
  }

  method RemoveField(n: Node, k: Name)
    requires n.Valid() && n.body.Fields?
    modifies n
    ensures n.Valid() && n.Repr == old(n.Repr) && n.body.Fields? && n.doc == Obj(old(n.doc.fields) - {k})
  {
    GroveHole(n.Repr - {n}, n.body.fields, n.doc.fields, k);
    n.doc := Obj(n.doc.fields - {k});
    n.body := Fields(n.body.fields - {k});
  }

  /** The key exists or the operation does not need it; then the object changes in place. */
  method ObjectPatch(n: Node, part: Part, p: HeapPatch) returns (ok: bool)
    requires n.Valid() && n.body.Fields? && Good(p.value) && Foot(p.value) !! n.Repr
    modifies n
    ensures ok == ApplyLeaf(old(n.doc), part, Pure(p)).Some?
    ensures ok ==> n.Valid() && Some(n.doc) == ApplyLeaf(old(n.doc), part, Pure(p))
    ensures fresh(n.Repr - old(n.Repr))
  {
    if !part.Key? {
      return false;
    }
    var k, m := part.name, n.body.fields;
    if p.op.Add? || (p.op.Replace? && k in m) {
      var value := Clone(p.value);
      SetField(n, k, value);
      return true;
    }
    if p.op.Remove? && k in m {
      RemoveField(n, k);
      return true;
    }
    return false;
  }

  /** Arrays grow and shrink: an insertion may move the items to a new container, which the caller must
      write back into the parent. */
  method ArrayPatch(n: Node, part: Part, p: HeapPatch) returns (r: Option<Node>)
    requires n.Valid() && n.body.Items? && Good(p.value) && Foot(p.value) !! n.Repr
    modifies n
    ensures r.Some? == ApplyLeaf(old(n.doc), part, Pure(p)).Some?
    ensures r.Some? ==> r.value.Valid() && Some(r.value.doc) == ApplyLeaf(old(n.doc), part, Pure(p))
    ensures r.Some? ==> fresh(r.value.Repr - old(n.Repr))
  {
    var i := Index(part, |n.body.items|, p.op.Add?);
    if i.None? || p.op.Unsupported? {
      return None;
    }
    if p.op.Remove? {
      RemoveItem(n, i.value);
      return Some(n);
    }
    var value := Clone(p.value);
    if p.op.Replace? {
      PutItem(n, i.value, value);
      return Some(n);
    }
    var target := GrowItems(n, i.value, value);
    return Some(target);
  }

  /** An insertion, in place or behind a new container. */
  method GrowItems(n: Node, i: nat, child: Value) returns (target: Node)
    requires n.Valid() && n.body.Items? && i <= |n.body.items| && Good(child) && Foot(child) !! n.Repr
    modifies n
    ensures target.Valid() && fresh(target.Repr - old(n.Repr) - old(Foot(child)))
    ensures i <= |old(n.doc.items)| && target.doc == Arr(Insert(old(n.doc.items), i, Denote(child)))
  {
    target := n;
    if * {
      target := Relocate(n);
    }
    InsertItem(target, i, child);
  }

  /** The same items behind a new container, as when an append outgrows the old one. */
  method Relocate(n: Node) returns (copy: Node)
    requires n.Valid() && n.body.Items?
    ensures copy.Valid() && fresh(copy) && copy.body == n.body && copy.doc == n.doc
    ensures copy.Repr == n.Repr - {n} + {copy}
  {
    copy := new Node(n.body, n.doc);
    copy.Repr := n.Repr - {n} + {copy};
    assert copy.Repr - {copy} == n.Repr - {n};
  }

  /** Walks to the container that holds the target, patches it and writes every container on the way
      back into its parent. */
  method PatchAt(v: Value, path: seq<Part>, p: HeapPatch) returns (r: Option<Value>)
    requires Good(v) && Good(p.value) && Foot(p.value) !! Foot(v) && path != []
    modifies Foot(v)
    ensures r.Some? == ApplyAt(old(Denote(v)), path, Pure(p)).Some?
    ensures r.Some? ==> Good(r.value) && Some(Denote(r.value)) == ApplyAt(old(Denote(v)), path, Pure(p))
    ensures r.Some? ==> fresh(Foot(r.value) - old(Foot(v)))
    decreases |path|, 1
  {
    if v.Leaf? {
      return None;
    }
    var n := v.node;
    if |path| == 1 {
      if n.body.Fields? {
        var ok := ObjectPatch(n, path[0], p);
        return if ok then Some(v) else None;
      }
      var moved := ArrayPatch(n, path[0], p);
      return if moved.Some? then Some(Ref(moved.value)) else None;
    }
    var ok := false;
    if n.body.Fields? {
      ok := PatchField(n, path, p);
    } else {
      ok := PatchElement(n, path, p);
    }
    return if ok then Some(v) else None;
  }

  method PatchField(n: Node, path: seq<Part>, p: HeapPatch) returns (ok: bool)
    requires n.Valid() && n.body.Fields? && Good(p.value) && Foot(p.value) !! n.Repr && |path| > 1
    modifies n.Repr
    ensures ok == ApplyAt(old(n.doc), path, Pure(p)).Some?
    ensures ok ==> n.Valid() && Some(n.doc) == ApplyAt(old(n.doc), path, Pure(p))
    ensures ok ==> fresh(n.Repr - old(n.Repr))
    decreases |path|, 0
  {
    if !path[0].Key? || path[0].name !in n.body.fields {
      return false;
    }
    var next := PatchMember(n, path[0].name, path[1..], p);
    if next.None? {
      return false;
    }
    PutField(n, path[0].name, next.value);
    return true;
  }

  /** Patches one child in place; its siblings stay as they were, and the child's slot is still to be
      written. */
  method PatchMember(n: Node, k: Name, path: seq<Part>, p: HeapPatch) returns (next: Option<Value>)
    requires n.Valid() && n.body.Fields? && Good(p.value) && Foot(p.value) !! n.Repr && path != []
    requires k in n.body.fields && k in n.doc.fields
    modifies n.Repr - {n}
    ensures next.Some? == ApplyAt(old(n.doc.fields[k]), path, Pure(p)).Some?
    ensures next.Some? ==> Good(next.value) && Some(Denote(next.value)) == ApplyAt(old(n.doc.fields[k]), path, Pure(p))
    ensures next.Some? ==> fresh(Foot(next.value) - old(n.Repr)) && n !in Foot(next.value)
    ensures Grove(n.Repr - {n}, n.body.fields, n.doc.fields, Some(k))
    ensures next.Some? ==>
              forall l :: l in n.body.fields && l != k ==> Foot(n.body.fields[l]) !! Foot(next.value)
    decreases |path|, 2
  {
    var m := n.body.fields;
    ghost var t, d := n.Repr - {n}, n.doc.fields;
    GroveRoots(t, m, d);
    next := PatchAt(m[k], path, p);
    forall l | l in m && l != k
      ensures Within(m[l], t) && Good(m[l]) && d[l] == Denote(m[l]) && Foot(m[l]) == old(Foot(m[l]))
    {
      assert old(Foot(m[k]) !! Foot(m[l]) && Within(m[l], t) && Good(m[l]));
    }
  }

  method PatchElement(n: Node, path: seq<Part>, p: HeapPatch) returns (ok: bool)
    requires n.Valid() && n.body.Items? && Good(p.value) && Foot(p.value) !! n.Repr && |path| > 1
    modifies n.Repr
    ensures ok == ApplyAt(old(n.doc), path, Pure(p)).Some?
    ensures ok ==> n.Valid() && Some(n.doc) == ApplyAt(old(n.doc), path, Pure(p))
    ensures ok ==> fresh(n.Repr - old(n.Repr))
    decreases |path|, 0
  {
    var s := n.body.items;
    var i := Index(path[0], |s|, false);
    if i.None? {
      return false;
    }
    ghost var t, d := n.Repr - {n}, n.doc.items;
    ForestRoots(t, s, d);
    var next := PatchAt(s[i.value], path[1..], p);
    if next.None? {
      return false;
    }
    forall l | 0 <= l < |s| && l != i.value
      ensures Within(s[l], t) && Good(s[l]) && d[l] == Denote(s[l]) && Foot(s[l]) == old(Foot(s[l]))
    {
      assert old(Foot(s[i.value]) !! Foot(s[l]) && Within(s[l], t) && Good(s[l]));
    }
    PutItem(n, i.value, next.value);
    return true;
  }

  /** One patch of a set; only the root may be replaced wholesale, and only by an object. */
  method ApplyOne(root: Value, p: HeapPatch) returns (r: Option<Value>)
    requires Good(root) && Good(p.value) && Foot(p.value) !! Foot(root)
    modifies Foot(root)
    ensures r.Some? == Apply(old(Denote(root)), Pure(p)).Some?
    ensures r.Some? ==> Good(r.value) && Some(Denote(r.value)) == Apply(old(Denote(root)), Pure(p))
    ensures r.Some? ==> fresh(Foot(r.value) - old(Foot(root)))
  {
    if p.path != [] {
      r := PatchAt(root, p.path, p);
    } else if (p.op.Add? || p.op.Replace?) && p.value.Ref? && p.value.node.body.Fields? {
      var copy := Clone(p.value);
      r := Some(copy);
    } else {
      r := None;
    }
  }

  /** A whole patch set on a private clone.  Nothing that existed before the call changes, whether it
      succeeds or fails; the result is built of new containers only, so it shares none with the
      baseline or with the patch values; and its document is the pure result. */
  method ApplyPatches(baseline: Node, ps: seq<HeapPatch>, ghost qs: seq<Patch>) returns (r: Option<Node>)
    requires baseline.Valid() && baseline.body.Fields?
    requires |qs| == |ps| && forall i :: 0 <= i < |ps| ==> Good(ps[i].value) && qs[i] == Pure(ps[i])
    ensures r.Some? == ApplyAll(baseline.doc, qs).Some?
    ensures r.Some? ==> r.value.Valid() && fresh(r.value.Repr)
    ensures r.Some? ==> Some(r.value.doc) == ApplyAll(baseline.doc, qs)
  {
    var root := Clone(Ref(baseline));
    for i := 0 to |ps|
      invariant Good(root) && fresh(Foot(root))
      invariant ApplyAll(baseline.doc, qs[..i]) == Some(Denote(root))
      invariant forall j :: 0 <= j < |ps| ==> Good(ps[j].value) && qs[j] == Pure(ps[j])
    {
      ApplyAllStep(baseline.doc, qs, i);
      var next := ApplyOne(root, ps[i]);
      if next.None? {
        return None;
      }
      root := next.value;
    }
    assert qs[..|ps|] == qs;
    RootStaysObject(baseline.doc, qs);
    if root.Leaf? || !root.node.body.Fields? {
      return None;
    }
    return Some(root.node);
  }
}
