/** JSON documents as the values of a Desktop conversation state, and the option type shared by the
    models.  Objects are finite maps, so member order is not observable. */
module Json {

  datatype Option<+T> = None | Some(value: T)

  /** An object member's name. */
  datatype Name = Name(text: string)

  datatype Json =
    | Null
    | Bool(b: bool)
    | Num(n: real)
    | Str(s: string)
    | Arr(items: seq<Json>)
    | Obj(fields: map<Name, Json>)

  /** Objects and arrays are the only containers; every other value is a leaf. */
  predicate IsAtom(j: Json) {
    !j.Arr? && !j.Obj?
  }

  function Insert(s: seq<Json>, i: nat, v: Json): (r: seq<Json>)
    requires i <= |s|
  {
    s[..i] + [v] + s[i..]
  }

  function Delete(s: seq<Json>, i: nat): (r: seq<Json>)
    requires i < |s|
  {
    s[..i] + s[i + 1..]
  }

  /** Insertion and deletion at one index undo each other. */
  lemma InsertDelete(s: seq<Json>, i: nat, v: Json)
    requires i <= |s|
    ensures Delete(Insert(s, i, v), i) == s
    ensures Insert(s, i, v)[i] == v
  {
    var t := Insert(s, i, v);
    assert t[..i] == s[..i];
    assert t[i + 1..] == s[i..];
    assert s == s[..i] + s[i..];
  }

  lemma DeleteInsert(s: seq<Json>, i: nat)
    requires i < |s|
    ensures Insert(Delete(s, i), i, s[i]) == s
  {
    var t := Delete(s, i);
    assert t[..i] == s[..i];
    assert t[i..] == s[i + 1..];
  }
}
