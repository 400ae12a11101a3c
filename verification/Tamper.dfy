/**
 The edits a tamper test tries on a record (tamper.go): which ones there are, and that each is listed once.
 A record is a JSON tree; numbers are integers.
 */
module Tamper {
  import opened Text
  import opened CanonicalJson

  /** An object key or a list index. */
  datatype Step = Key(key: string) | Index(index: nat)

  type Path = seq<Step>

  datatype Kind = Changed | Deleted | Removed | Appended | Added

  datatype Change = Change(kind: Kind, path: Path)

  predicate Container(v: Json) { v.Obj? || v.Arr? }

  function Child(v: Json, s: Step): (c: Option<Json>)
    ensures c.Some? ==> c.value < v
  {
    match s
    case Key(k) => if v.Obj? && k in v.members then Some(v.members[k]) else None
    case Index(i) => if v.Arr? && i < |v.items| then Some(v.items[i]) else None
  }

  /** The value a path leads to, if it leads anywhere. */
  function Resolve(v: Json, p: Path): Option<Json>
    decreases |p|
  {
    if p == [] then Some(v)
    else if Child(v, p[0]).None? then None
    else Resolve(Child(v, p[0]).value, p[1..])
  }

  /**
   One step as tamperValueAt takes it: an object is asked for the step's key and a list for its index, whichever
   the step was meant for.
   */
  function LookUp(v: Json, s: Step): Json {
    match v
    case Obj(members) => var k := if s.Key? then s.key else ""; if k in members then members[k] else Null
    case Arr(items) => var i := if s.Index? then s.index else 0; if i < |items| then items[i] else Null
    case _ => Null
  }

  function LookedUp(v: Json, p: Path): Json
    decreases |p|
  {
    if p == [] then v else LookedUp(LookUp(v, p[0]), p[1..])
  }

  lemma {:induction false} NothingFound(p: Path)
    ensures LookedUp(Null, p) == Null
  {
    if p != [] { NothingFound(p[1..]); }
  }

  /** Where a path leads somewhere, that is what looking it up finds. */
  lemma {:induction false} LookedUpResolves(v: Json, p: Path)
    requires Resolve(v, p).Some?
    ensures LookedUp(v, p) == Resolve(v, p).value
    decreases |p|
  {
    if p != [] { LookedUpResolves(Child(v, p[0]).value, p[1..]); }
  }

  /** tamperValueAt: what the path leads to, and null where nothing is found. */
  method ValueAt(root: Json, path: Path) returns (value: Json)
    ensures value == LookedUp(root, path)
    ensures Resolve(root, path).Some? ==> value == Resolve(root, path).value
  {
    if Resolve(root, path).Some? { LookedUpResolves(root, path); }
    var node := root;
    for i := 0 to |path|
      invariant LookedUp(node, path[i..]) == LookedUp(root, path)
    {
      var s := path[i];
      assert path[i..][1..] == path[i + 1..];
      NothingFound(path[i + 1..]);
      if node.Obj? {
        var k := if s.Key? then s.key else "";
        node := if k in node.members then node.members[k] else Null;
      } else if node.Arr? {
        var n := if s.Index? then s.index else 0;
        if n >= |node.items| {
          return Null;
        }
        node := node.items[n];
      } else {
        return Null;
      }
    }
    return node;
  }

  /** tamperZero: empty, false, zero or null, or made only of such values. */
  predicate Zero(v: Json) {
    match v
    case Null => true
    case Bool(b) => !b
    case Num(n) => n == 0
    case Str(s) => s == ""
    case Arr(items) => forall i :: 0 <= i < |items| ==> Zero(items[i])
    case Obj(members) => forall k :: k in members ==> Zero(members[k])
  }

  // ----- The list of edits -----

  ghost function Changes(v: Json, path: Path): seq<Change>
    decreases v, 1
  {
    match v
    case Obj(members) => MemberChanges(v, SortedKeys(members.Keys), path)
    case Arr(items) => ItemChanges(v, 0, path)
    case _ => []
  }

  ghost function MemberChanges(v: Json, keys: seq<string>, path: Path): seq<Change>
    requires v.Obj? && forall k :: k in keys ==> k in v.members
    decreases v, 0, |keys|
  {
    if keys == [] then [Change(Added, path)]
    else EntryChanges(v.members[keys[0]], Key(keys[0]), path) + MemberChanges(v, keys[1..], path)
  }

  ghost function ItemChanges(v: Json, i: nat, path: Path): seq<Change>
    requires v.Arr? && i <= |v.items|
    decreases v, 0, |v.items| - i
  {
    if i == |v.items| then (if i > 0 then [Change(Appended, path)] else [])
    else EntryChanges(v.items[i], Index(i), path) + ItemChanges(v, i + 1, path)
  }

  /** The edits of one entry of an object or list: of its value or inside it, then its deletion or removal. */
  ghost function EntryChanges(c: Json, s: Step, path: Path): seq<Change>
    decreases c, 2
  {
    (if Container(c) then Changes(c, path + [s]) else [Change(Changed, path + [s])])
    + (if s.Index? then [Change(Removed, path + [s])] else if Zero(c) then [] else [Change(Deleted, path + [s])])
  }

  class ChangeList {
    var list: seq<Change>

    constructor ()
      ensures list == []
    {
      list := [];
    }

    method Append(c: Change)
      modifies this
      ensures list == old(list) + [c]
    {
      list := list + [c];
    }
  }

  /** tamperChanges */
  method TamperChanges(node: Json, path: Path, out: ChangeList)
    modifies out
    ensures out.list == old(out.list) + Changes(node, path)
    decreases node, 1
  {
    match node
    case Obj(_) => TamperMembers(node, path, out);
    case Arr(_) => TamperItems(node, path, out);
    case _ =>
  }

  method TamperMembers(node: Json, path: Path, out: ChangeList)
    requires node.Obj?
    modifies out
    ensures out.list == old(out.list) + MemberChanges(node, SortedKeys(node.members.Keys), path)
    decreases node, 0
  {
    hide SortedKeys, Zero, Changes;
    var v := node.members;
    var keys := KeysInOrder(v);
    ghost var before := out.list;
    for i := 0 to |keys|
      invariant out.list + MemberChanges(node, keys[i..], path) == before + MemberChanges(node, keys, path)
    {
      var k := keys[i];
      var child := path + [Key(k)];
      ghost var start := out.list;
      if Container(v[k]) {
        TamperChanges(v[k], child, out);
      } else {
        out.Append(Change(Changed, child));
      }
      ghost var inner := out.list;
      if !Zero(v[k]) {
        out.Append(Change(Deleted, child));
      }
      assert out.list == start + EntryChanges(v[k], Key(k), path);
      assert keys[i..][1..] == keys[i + 1..];
      Regroup(start, EntryChanges(v[k], Key(k), path), MemberChanges(node, keys[i + 1..], path));
    }
    assert keys[|keys|..] == [];
    out.Append(Change(Added, path));
  }

  method TamperItems(node: Json, path: Path, out: ChangeList)
    requires node.Arr?
    modifies out
    ensures out.list == old(out.list) + ItemChanges(node, 0, path)
    decreases node, 0
  {
    hide Zero, Changes;
    var v := node.items;
    ghost var before := out.list;
    for i := 0 to |v|
      invariant out.list + ItemChanges(node, i, path) == before + ItemChanges(node, 0, path)
    {
      var child := path + [Index(i)];
      ghost var start := out.list;
      if Container(v[i]) {
        TamperChanges(v[i], child, out);
      } else {
        out.Append(Change(Changed, child));
      }
      out.Append(Change(Removed, child));
      assert out.list == start + EntryChanges(v[i], Index(i), path);
      Regroup(start, EntryChanges(v[i], Index(i), path), ItemChanges(node, i + 1, path));
    }
    if |v| > 0 {
      out.Append(Change(Appended, path));
    }
  }

  lemma {:induction false} Regroup(a: seq<Change>, b: seq<Change>, c: seq<Change>)
    ensures a + (b + c) == a + b + c
  {
  }

  // ----- Which edits are listed -----

  /**
   An edit the test makes: each scalar inside the record is changed, each key whose value means something deleted,
   each list item removed, each non-empty list extended, and each object given an unknown key.
   */
  ghost predicate Listable(root: Json, c: Change) {
    && Resolve(root, c.path).Some?
    && var t := Resolve(root, c.path).value;
    match c.kind
    case Changed => c.path != [] && !Container(t)
    case Deleted => c.path != [] && c.path[|c.path| - 1].Key? && !Zero(t)
    case Removed => c.path != [] && c.path[|c.path| - 1].Index?
    case Appended => t.Arr? && t.items != []
    case Added => t.Obj?
  }

  /** The same by descent: what a node lists at a path below it. */
  ghost predicate Declared(v: Json, kind: Kind, p: Path)
    decreases |p|, 1
  {
    if p == [] then (kind == Added && v.Obj?) || (kind == Appended && v.Arr? && v.items != [])
    else Child(v, p[0]).Some? && EntryDeclared(Child(v, p[0]).value, p[0], kind, p[1..])
  }

  ghost predicate EntryDeclared(c: Json, s: Step, kind: Kind, rest: Path)
    decreases |rest|, 2
  {
    || Declared(c, kind, rest)
    || (rest == [] && kind == Changed && !Container(c))
    || (rest == [] && kind == Deleted && s.Key? && !Zero(c))
    || (rest == [] && kind == Removed && s.Index?)
  }

  /** An edit below a step of a node. */
  ghost predicate Under(path: Path, s: Step, x: Change) {
    |path| < |x.path| && x.path[..|path|] == path && x.path[|path|] == s
  }

  lemma {:induction false} InEntry(c: Json, s: Step, path: Path, x: Change)
    ensures x in EntryChanges(c, s, path) <==> Under(path, s, x) && EntryDeclared(c, s, x.kind, x.path[|path| + 1..])
    decreases c, 2
  {
    hide Zero, Changes;
    var child := path + [s];
    assert x.path == child ==> Under(path, s, x) && x.path[|path| + 1..] == [];
    assert Under(path, s, x) && x.path[|path| + 1..] == [] ==> x.path == child;
    assert child <= x.path <==> Under(path, s, x);
    if Container(c) { InChanges(c, child, x); }
  }

  lemma {:induction false} InChanges(v: Json, path: Path, x: Change)
    ensures x in Changes(v, path) <==> path <= x.path && Declared(v, x.kind, x.path[|path|..])
    decreases v, 1
  {
    if path <= x.path { Below(path, x); }
    match v
    case Obj(members) => InMembers(v, SortedKeys(members.Keys), path, x);
    case Arr(items) => InItems(v, 0, path, x);
    case _ =>
  }

  /** The part of an edit's path below a node, step first. */
  lemma {:induction false} Below(path: Path, x: Change)
    requires path <= x.path
    ensures x.path[|path|..] == [] <==> x.path == path
    ensures x.path != path ==>
        Under(path, x.path[|path|], x) && x.path[|path|..][0] == x.path[|path|]
        && x.path[|path|..][1..] == x.path[|path| + 1..]
  {
    if x.path[|path|..] == [] { assert x.path == x.path[..|path|]; }
  }

  lemma {:induction false} InMembers(v: Json, keys: seq<string>, path: Path, x: Change)
    requires v.Obj? && forall k :: k in keys ==> k in v.members
    ensures x in MemberChanges(v, keys, path) <==>
            x == Change(Added, path)
            || (|path| < |x.path| && x.path[|path|].Key? && x.path[|path|].key in keys && Under(path, x.path[|path|], x)
                && EntryDeclared(v.members[x.path[|path|].key], x.path[|path|], x.kind, x.path[|path| + 1..]))
    decreases v, 0, |keys|
  {
    hide EntryDeclared, EntryChanges;
    if keys != [] {
      InMembers(v, keys[1..], path, x);
      InEntry(v.members[keys[0]], Key(keys[0]), path, x);
    }
  }

  lemma {:induction false} InItems(v: Json, i: nat, path: Path, x: Change)
    requires v.Arr? && i <= |v.items|
    ensures x in ItemChanges(v, i, path) <==>
            (x == Change(Appended, path) && v.items != [])
            || (|path| < |x.path| && x.path[|path|].Index? && i <= x.path[|path|].index < |v.items|
                && Under(path, x.path[|path|], x)
                && EntryDeclared(v.items[x.path[|path|].index], x.path[|path|], x.kind, x.path[|path| + 1..]))
    decreases v, 0, |v.items| - i
  {
    hide EntryDeclared, EntryChanges;
    if i < |v.items| {
      InItems(v, i + 1, path, x);
      InEntry(v.items[i], Index(i), path, x);
    }
  }

  lemma {:induction false} DeclaredIsListable(v: Json, kind: Kind, p: Path)
    ensures Declared(v, kind, p) <==> Listable(v, Change(kind, p))
    decreases |p|
  {
    hide Zero;
    if p != [] && Child(v, p[0]).Some? {
      var c, rest := Child(v, p[0]).value, p[1..];
      DeclaredIsListable(c, kind, rest);
      assert Resolve(v, p) == Resolve(c, rest);
      if rest == [] {
        assert p[|p| - 1] == p[0] && Resolve(c, rest) == Some(c);
      } else {
        assert rest[|rest| - 1] == p[|p| - 1];
      }
    }
  }

  /** The test lists exactly the edits it means to make, and every listed path leads somewhere. */
  lemma {:induction false} ListedIff(root: Json, c: Change)
    ensures c in Changes(root, []) <==> Listable(root, c)
  {
    hide Changes, Listable, Declared;
    InChanges(root, [], c);
    assert c.path[0..] == c.path;
    DeclaredIsListable(root, c.kind, c.path);
    assert c == Change(c.kind, c.path);
  }

  // ----- Each once -----

  ghost predicate Distinct(xs: seq<Change>) { forall i, j :: 0 <= i < j < |xs| ==> xs[i] != xs[j] }

  lemma {:induction false} DistinctConcat(a: seq<Change>, b: seq<Change>)
    requires Distinct(a) && Distinct(b) && forall x :: x in a ==> x !in b
    ensures Distinct(a + b)
  {
    forall i, j | 0 <= i < j < |a + b| ensures (a + b)[i] != (a + b)[j] {
      if i < |a| <= j { assert a[i] in a && b[j - |a|] in b; }
    }
  }

  lemma {:induction false} EntryDistinct(c: Json, s: Step, path: Path)
    ensures Distinct(EntryChanges(c, s, path))
    decreases c, 2
  {
    hide Zero, Changes;
    var child := path + [s];
    var first := if Container(c) then Changes(c, child) else [Change(Changed, child)];
    var second := if s.Index? then [Change(Removed, child)] else if Zero(c) then [] else [Change(Deleted, child)];
    if Container(c) { ChangesDistinct(c, child); }
    forall x | x in first ensures x !in second {
      if Container(c) {
        InChanges(c, child, x);
        if x.path == child { assert x.path[|child|..] == []; }
      }
    }
    DistinctConcat(first, second);
  }

  lemma {:induction false} ChangesDistinct(v: Json, path: Path)
    ensures Distinct(Changes(v, path))
    decreases v, 1
  {
    match v
    case Obj(members) =>
      SortedKeysIncreasing(members.Keys);
      MembersDistinct(v, SortedKeys(members.Keys), path);
    case Arr(items) => ItemsDistinct(v, 0, path);
    case _ =>
  }

  lemma {:induction false} MembersDistinct(v: Json, keys: seq<string>, path: Path)
    requires v.Obj? && (forall k :: k in keys ==> k in v.members) && Increasing(keys)
    ensures Distinct(MemberChanges(v, keys, path))
    decreases v, 0, |keys|
  {
    hide EntryDeclared, EntryChanges, Distinct;
    if keys != [] {
      IncreasingTail(keys);
      MembersDistinct(v, keys[1..], path);
      EntryDistinct(v.members[keys[0]], Key(keys[0]), path);
      forall x | x in EntryChanges(v.members[keys[0]], Key(keys[0]), path)
          ensures x !in MemberChanges(v, keys[1..], path) {
        InEntry(v.members[keys[0]], Key(keys[0]), path, x);
        InMembers(v, keys[1..], path, x);
      }
      DistinctConcat(EntryChanges(v.members[keys[0]], Key(keys[0]), path), MemberChanges(v, keys[1..], path));
    } else {
      OneDistinct(Change(Added, path));
    }
  }

  lemma {:induction false} OneDistinct(x: Change)
    ensures Distinct([x]) && Distinct([])
  {
  }

  lemma {:induction false} ItemsDistinct(v: Json, i: nat, path: Path)
    requires v.Arr? && i <= |v.items|
    ensures Distinct(ItemChanges(v, i, path))
    decreases v, 0, |v.items| - i
  {
    hide EntryDeclared, EntryChanges, Distinct;
    OneDistinct(Change(Appended, path));
    if i < |v.items| {
      ItemsDistinct(v, i + 1, path);
      EntryDistinct(v.items[i], Index(i), path);
      forall x | x in EntryChanges(v.items[i], Index(i), path) ensures x !in ItemChanges(v, i + 1, path) {
        InEntry(v.items[i], Index(i), path, x);
        InItems(v, i + 1, path, x);
      }
      DistinctConcat(EntryChanges(v.items[i], Index(i), path), ItemChanges(v, i + 1, path));
    }
  }
}
