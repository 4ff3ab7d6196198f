/** What the patch language means, said without its own helpers: which member or item a path element names,
    and what each operation leaves behind.  The patch function computes exactly this relation. */
module PatchMeaning {
  import opened Json
  import opened JsonPatch

  /** The path element stands for array position `k`: as an integer, as a decoded JSON number, or as a textual
      number. */
  predicate Names(part: Part, k: nat) {
    || part == Int(k)
    || part == Number(Some(k))
    || (part == Float(k as real) && k <= 0x7fff_ffff_ffff_ffff)
  }

  /** Array `s` becomes `after`: an insertion moves the items from position `k` on up by one, a removal closes
      the gap, a replacement moves nothing. */
  predicate ItemEdited(s: seq<Json>, k: nat, p: Patch, after: Json) {
    match p.op
    case Add => k <= |s| && after == Arr(s[..k] + [p.value] + s[k..])
    case Replace => k < |s| && after == Arr(s[k := p.value])
    case Remove => k < |s| && after == Arr(s[..k] + s[k + 1..])
    case Unsupported => false
  }

  /** Object `m` becomes `after`: only an addition may name a member that is not there. */
  predicate MemberEdited(m: map<Name, Json>, name: Name, p: Patch, after: Json) {
    match p.op
    case Add => after == Obj(m[name := p.value])
    case Replace => name in m && after == Obj(m[name := p.value])
    case Remove => name in m && after == Obj(map n | n in m && n != name :: m[n])
    case Unsupported => false
  }

  /** A patch below `node` leaves `after`: the container at the end of the path is edited, every container on
      the way has the one child replaced, and nothing else happens. */
  ghost predicate Edited(node: Json, path: seq<Part>, p: Patch, after: Json)
    requires path != []
    decreases |path|
  {
    if |path| == 1 then
      match node
      case Obj(m) => path[0].Key? && MemberEdited(m, path[0].name, p, after)
      case Arr(s) => exists k: nat :: Names(path[0], k) && ItemEdited(s, k, p, after)
      case _ => false
    else
      match node
      case Obj(m) =>
        && path[0].Key? && path[0].name in m
        && exists child :: Edited(m[path[0].name], path[1..], p, child) && after == Obj(m[path[0].name := child])
      case Arr(s) =>
        exists k: nat :: Names(path[0], k) && k < |s| &&
          exists child :: Edited(s[k], path[1..], p, child) && after == Arr(s[k := child])
      case _ => false
  }

  lemma NamesOne(part: Part, j: nat, k: nat)
    requires Names(part, j) && Names(part, k)
    ensures j == k
  {
    if part.Float? {
      assert (j as real).Floor == j && (k as real).Floor == k;
    }
  }

  /** An array position is accepted exactly if the element stands for one within the limits. */
  lemma {:induction false} IndexExactly(part: Part, length: nat, allowEnd: bool, k: nat)
    ensures Index(part, length, allowEnd) == Some(k) <==>
              Names(part, k) && (if allowEnd then k <= length else k < length)
  {
    if part.Float? {
      assert (k as real).Floor == k;
      if Integer(part).Some? {
        assert part == Float(Integer(part).value as real);
      }
    }
  }

  /** Negative, fractional, out-of-range, non-numeric and textual elements that are no number name nothing. */
  lemma {:induction false} NothingNamed(s: seq<Json>, part: Part, p: Patch)
    requires
      || part.Key? || part.Other? || part == Number(None)
      || (part.Int? && (part.i < 0 || part.i > |s|))
      || (part.Number? && part.parsed.Some? && (part.parsed.value < 0 || part.parsed.value > |s|))
      || (part.Float? && (part.r < 0.0 || part.r > |s| as real || part.r != part.r.Floor as real))
    ensures ApplyAt(Arr(s), [part], p).None?
  {
  }

  lemma {:induction false} LeafExactly(node: Json, part: Part, p: Patch, after: Json)
    ensures ApplyLeaf(node, part, p) == Some(after) <==> Edited(node, [part], p, after)
  {
    match node
    case Obj(m) =>
      if part.Key? {
        assert m - {part.name} == map n | n in m && n != part.name :: m[n];
      }
    case Arr(s) =>
      var i := Index(part, |s|, p.op.Add?);
      if i.Some? {
        IndexExactly(part, |s|, p.op.Add?, i.value);
      }
      if k: nat :| Names(part, k) && ItemEdited(s, k, p, after) {
        IndexExactly(part, |s|, p.op.Add?, k);
      }
    case _ =>
  }

  /** The selected child is the member of that name, or the item at the position the element stands for. */
  lemma {:induction false} ChildExactly(node: Json, part: Part, child: Json)
    ensures Child(node, part) == Some(child) <==>
              match node
              case Obj(m) => part.Key? && part.name in m && m[part.name] == child
              case Arr(s) => exists k: nat :: Names(part, k) && k < |s| && s[k] == child
              case _ => false
  {
    if node.Arr? {
      var s := node.items;
      var i := Index(part, |s|, false);
      if i.Some? {
        IndexExactly(part, |s|, false, i.value);
      }
      if k: nat :| Names(part, k) && k < |s| && s[k] == child {
        IndexExactly(part, |s|, false, k);
      }
    }
  }

  /** Main theorem: one patch below a node succeeds with a result exactly if the meaning says so. */
  lemma {:induction false} PatchExactly(node: Json, path: seq<Part>, p: Patch, after: Json)
    requires path != []
    ensures ApplyAt(node, path, p) == Some(after) <==> Edited(node, path, p, after)
    decreases |path|, 1
  {
    if |path| == 1 {
      assert path == [path[0]];
      LeafExactly(node, path[0], p, after);
    } else {
      match node
      case Obj(m) =>
        if path[0].Key? && path[0].name in m {
          DescendExactly(node, path, p, after, m[path[0].name]);
        }
      case Arr(s) =>
        forall k: nat | Names(path[0], k) && k < |s|
          ensures Index(path[0], |s|, false) == Some(k)
          ensures ApplyAt(node, path, p) == Some(after) <==>
                    exists child :: Edited(s[k], path[1..], p, child) && after == Arr(s[k := child])
        {
          IndexExactly(path[0], |s|, false, k);
          DescendExactly(node, path, p, after, s[k]);
        }
        if i: nat :| Index(path[0], |s|, false) == Some(i) {
          IndexExactly(path[0], |s|, false, i);
        }
      case _ =>
    }
  }

  lemma {:induction false} DescendExactly(node: Json, path: seq<Part>, p: Patch, after: Json, child: Json)
    requires |path| > 1 && Child(node, path[0]) == Some(child)
    ensures ApplyAt(node, path, p) == Some(after) <==>
              exists next :: Edited(child, path[1..], p, next) && after == WithChild(node, path[0], next)
    decreases |path|, 0
  {
    if next :| ApplyAt(child, path[1..], p) == Some(next) {
      PatchExactly(child, path[1..], p, next);
    }
    forall next | Edited(child, path[1..], p, next) ensures ApplyAt(child, path[1..], p) == Some(next) {
      PatchExactly(child, path[1..], p, next);
    }
  }

  // ---- Whole patch sets ----

  /** A whole patch: at the root only an object may be put in place. */
  ghost predicate Patched(root: Json, p: Patch, after: Json) {
    if p.path == [] then (p.op.Add? || p.op.Replace?) && p.value.Obj? && after == p.value
    else Edited(root, p.path, p, after)
  }

  /** The documents before, between and after the patches of a set. */
  ghost predicate Trail(root: Json, ps: seq<Patch>, docs: seq<Json>) {
    && |docs| == |ps| + 1 && docs[0] == root
    && forall n :: 0 <= n < |ps| ==> Patched(docs[n], ps[n], docs[n + 1])
  }

  /** Main theorem for patch sets: all patches in order, each from the document the one before left, or
      nothing. */
  lemma {:induction false} PatchSetExactly(root: Json, ps: seq<Patch>, after: Json)
    ensures ApplyAll(root, ps) == Some(after) <==> exists docs :: Trail(root, ps, docs) && docs[|ps|] == after
    decreases |ps|
  {
    if ps == [] {
      assert ApplyAll(root, ps) == Some(after) ==> Trail(root, ps, [root]);
    } else {
      if ApplyAll(root, ps) == Some(after) {
        var next := Apply(root, ps[0]).value;
        OneExactly(root, ps[0], next);
        PatchSetExactly(next, ps[1..], after);
        var docs :| Trail(next, ps[1..], docs) && docs[|ps| - 1] == after;
        TrailCons(root, ps, docs);
      }
      forall docs | Trail(root, ps, docs) && docs[|ps|] == after
        ensures ApplyAll(root, ps) == Some(after)
      {
        assert Patched(docs[0], ps[0], docs[1]);
        OneExactly(root, ps[0], docs[1]);
        TrailTail(root, ps, docs);
        PatchSetExactly(docs[1], ps[1..], after);
        assert docs[1..][|ps| - 1] == after;
      }
    }
  }

  lemma {:induction false} OneExactly(root: Json, p: Patch, after: Json)
    ensures Apply(root, p) == Some(after) <==> Patched(root, p, after)
  {
    if p.path != [] {
      PatchExactly(root, p.path, p, after);
    }
  }

  lemma {:induction false} TrailCons(root: Json, ps: seq<Patch>, docs: seq<Json>)
    requires ps != [] && docs != [] && Patched(root, ps[0], docs[0]) && Trail(docs[0], ps[1..], docs)
    ensures Trail(root, ps, [root] + docs) && ([root] + docs)[|ps|] == docs[|ps| - 1]
  {
    var all := [root] + docs;
    forall n | 0 <= n < |ps| ensures Patched(all[n], ps[n], all[n + 1]) {
      if n > 0 {
        assert Patched(docs[n - 1], ps[1..][n - 1], docs[n]);
      }
    }
  }

  lemma {:induction false} TrailTail(root: Json, ps: seq<Patch>, docs: seq<Json>)
    requires ps != [] && Trail(root, ps, docs)
    ensures Trail(docs[1], ps[1..], docs[1..])
  {
    forall n | 0 <= n < |ps| - 1 ensures Patched(docs[1..][n], ps[1..][n], docs[1..][n + 1]) {
      assert Patched(docs[n + 1], ps[n + 1], docs[n + 2]);
    }
  }
}
