/** What one edit of the tamper test does to a record, as a value (tamper.go). */
module TamperEdit {
  import opened Text
  import opened CanonicalJson
  import opened Job
  import opened Tamper

  const UNKNOWN_KEY := "tamper_test_unknown_key"

  /** Adding one to a number outside int64 goes through a float, which is not part of this model. */
  type FloatStep = int -> int

  predicate Int64(n: int) { -0x8000_0000_0000_0000 <= n < 0x8000_0000_0000_0000 }

  /** tamperAltered: a different scalar of the same kind; int64 addition wraps. */
  function Altered(v: Json, up: FloatStep): Json {
    match v
    case Null => Str("x")
    case Bool(b) => Bool(!b)
    case Num(n) => if n == 0x7fff_ffff_ffff_ffff then Num(-0x8000_0000_0000_0000) else if Int64(n) then Num(n + 1)
        else Num(up(n))
    case Str(s) => if ValidHash(s) then (if s[0] == 'f' then Str("0" + s[1..]) else Str("f" + s[1..])) else Str(s + "x")
    case _ => v
  }

  lemma {:induction false} AlteredDiffers(v: Json, up: FloatStep)
    requires !Container(v)
    ensures (v.Num? ==> Int64(v.number)) ==> Altered(v, up) != v
    ensures !Container(Altered(v, up))
  {
    if v.Str? && ValidHash(v.text) {
      assert ("0" + v.text[1..])[0] == '0' && ("f" + v.text[1..])[0] == 'f';
    }
  }

  /** A value with the entry at a step replaced. */
  function WithChild(v: Json, s: Step, c: Json): Json
    requires Child(v, s).Some?
  {
    match s
    case Key(k) => Obj(v.members[k := c])
    case Index(i) => Arr(v.items[i := c])
  }

  /** A value with what a path leads to replaced. */
  function Put(v: Json, p: Path, w: Json): Json
    requires Resolve(v, p).Some?
    decreases |p|
  {
    if p == [] then w else WithChild(v, p[0], Put(Child(v, p[0]).value, p[1..], w))
  }

  function Init(p: Path): Path
    requires p != []
  {
    p[..|p| - 1]
  }

  function Last(p: Path): Step
    requires p != []
  {
    p[|p| - 1]
  }

  lemma {:induction false} ResolveAppend(v: Json, p: Path, q: Path)
    ensures Resolve(v, p + q) == if Resolve(v, p).Some? then Resolve(Resolve(v, p).value, q) else None
    decreases |p|
  {
    if p == [] {
      assert p + q == q;
    } else {
      assert (p + q)[1..] == p[1..] + q;
      if Child(v, p[0]).Some? { ResolveAppend(Child(v, p[0]).value, p[1..], q); }
    }
  }

  /** The object or list an edit's last step stands in. */
  lemma {:induction false} ParentResolves(v: Json, p: Path)
    requires p != [] && Resolve(v, p).Some?
    ensures Resolve(v, Init(p)).Some? && Child(Resolve(v, Init(p)).value, Last(p)) == Resolve(v, p)
  {
    assert Init(p) + [Last(p)] == p && [Last(p)][1..] == [];
    ResolveAppend(v, Init(p), [Last(p)]);
  }

  /** The object or list an edit changes: the one its path leads to, or the one its last step stands in. */
  function Target(c: Change): Path {
    if c.kind.Appended? || c.kind.Added? || c.path == [] then c.path else Init(c.path)
  }

  /** That object or list after the edit. */
  ghost function NewTarget(t: Json, c: Change, up: FloatStep): Json
    requires c.kind.Appended? ==> t.Arr? && t.items != []
    requires c.kind.Added? ==> t.Obj?
    requires c.kind.Changed? ==> c.path != [] && Child(t, Last(c.path)).Some?
    requires c.kind.Deleted? ==> c.path != [] && Child(t, Last(c.path)).Some? && Last(c.path).Key?
    requires c.kind.Removed? ==> c.path != [] && Child(t, Last(c.path)).Some? && Last(c.path).Index?
  {
    match c.kind
    case Appended => Arr(t.items + [t.items[|t.items| - 1]])
    case Added => Obj(t.members[UNKNOWN_KEY := Str("x")])
    case Changed => WithChild(t, Last(c.path), Altered(Child(t, Last(c.path)).value, up))
    case Deleted => Obj(t.members - {Last(c.path).key})
    case Removed => Arr(t.items[..Last(c.path).index] + t.items[Last(c.path).index + 1..])
  }

  ghost predicate Editable(t: Json, c: Change) {
    && (c.kind.Appended? ==> t.Arr? && t.items != [])
    && (c.kind.Added? ==> t.Obj?)
    && (c.kind.Changed? || c.kind.Deleted? || c.kind.Removed? ==> c.path != [] && Child(t, Last(c.path)).Some?)
    && (c.kind.Deleted? ==> Last(c.path).Key?) && (c.kind.Removed? ==> Last(c.path).Index?)
  }

  /** A listed edit finds the object or list it changes. */
  lemma {:induction false} TargetFound(root: Json, c: Change)
    requires Listable(root, c)
    ensures Resolve(root, Target(c)).Some? && Editable(Resolve(root, Target(c)).value, c)
    ensures c.kind.Changed? ==> Child(Resolve(root, Target(c)).value, Last(c.path)) == Resolve(root, c.path)
  {
    hide Zero, Resolve;
    if !c.kind.Appended? && !c.kind.Added? { ParentResolves(root, c.path); }
  }

  /** The record after a listed edit. */
  ghost function Edited(root: Json, c: Change, up: FloatStep): Json
    requires Listable(root, c)
  {
    TargetFound(root, c);
    Put(root, Target(c), NewTarget(Resolve(root, Target(c)).value, c, up))
  }

  // ----- Replacing what a path leads to -----

  ghost predicate Unrelated(p: Path, q: Path) { !(p <= q) && !(q <= p) }

  lemma {:induction false} PutResolve(v: Json, p: Path, w: Json, q: Path)
    requires Resolve(v, p).Some?
    ensures Resolve(Put(v, p, w), p + q) == Resolve(w, q)
    decreases |p|
  {
    if p == [] {
      assert p + q == q;
    } else {
      assert (p + q)[1..] == p[1..] + q;
      PutResolve(Child(v, p[0]).value, p[1..], w, q);
    }
  }

  lemma {:induction false} ChildWithChild(v: Json, s: Step, c: Json, r: Step)
    requires Child(v, s).Some?
    ensures Child(WithChild(v, s, c), r) == if r == s then Some(c) else Child(v, r)
  {
  }

  lemma {:induction false} PutFrame(v: Json, p: Path, w: Json, q: Path)
    requires Resolve(v, p).Some? && Unrelated(p, q)
    ensures Resolve(Put(v, p, w), q) == Resolve(v, q)
    decreases |p|
  {
    hide Child, WithChild;
    ChildWithChild(v, p[0], Put(Child(v, p[0]).value, p[1..], w), q[0]);
    if p[0] == q[0] {
      assert p == [p[0]] + p[1..] && q == [q[0]] + q[1..];
      PutFrame(Child(v, p[0]).value, p[1..], w, q[1..]);
    }
  }

  lemma {:induction false} PutSame(v: Json, p: Path, w: Json)
    requires Resolve(v, p).Some?
    ensures Put(v, p, w) == v <==> Resolve(v, p) == Some(w)
    decreases |p|
  {
    if p != [] {
      PutSame(Child(v, p[0]).value, p[1..], w);
      SameChild(v, p[0], Put(Child(v, p[0]).value, p[1..], w));
    }
  }

  lemma {:induction false} SameChild(v: Json, s: Step, c: Json)
    requires Child(v, s).Some?
    ensures WithChild(v, s, c) == v <==> Child(v, s) == Some(c)
  {
    if WithChild(v, s, c) == v { assert Child(WithChild(v, s, c), s) == Some(c); }
  }

  /** Replacing an object or list by one that differs in one entry leaves every path that does not meet that entry. */
  lemma {:induction false} EntryFrame(root: Json, p: Path, w: Json, s: Step, q: Path)
    requires Resolve(root, p).Some? && (forall r :: r != s ==> Child(w, r) == Child(Resolve(root, p).value, r))
    requires Unrelated(p + [s], q)
    ensures Resolve(Put(root, p, w), q) == Resolve(root, q)
  {
    hide Put, Child, Resolve;
    if p <= q {
      var r := q[|p|..];
      assert q == p + r;
      assert q == p ==> q <= p + [s];
      assert r[0] == s ==> p + [s] <= q;
      PutResolve(root, p, w, r);
      ResolveAppend(root, p, r);
      FirstStep(w, Resolve(root, p).value, r);
    } else {
      assert q <= p ==> q <= p + [s];
      PutFrame(root, p, w, q);
    }
  }

  lemma {:induction false} FirstStep(v: Json, w: Json, r: Path)
    requires r != [] && Child(v, r[0]) == Child(w, r[0])
    ensures Resolve(v, r) == Resolve(w, r)
  {
  }

  // ----- What an edit does, and what it leaves -----

  /** The entry an edit touches: the value itself, the new key, or the place after the last item. */
  ghost function Place(root: Json, c: Change): Path
    requires Listable(root, c) && !c.kind.Removed?
  {
    match c.kind
    case Added => c.path + [Key(UNKNOWN_KEY)]
    case Appended => c.path + [Index(|Resolve(root, c.path).value.items|)]
    case _ => c.path
  }

  ghost function LastStep(t: Json, c: Change): Step
    requires Editable(t, c)
  {
    match c.kind
    case Added => Key(UNKNOWN_KEY)
    case Appended => Index(|t.items|)
    case _ => Last(c.path)
  }

  lemma {:induction false} OneEntryDiffers(t: Json, c: Change, up: FloatStep, r: Step)
    requires Editable(t, c) && !c.kind.Removed? && r != LastStep(t, c)
    ensures Child(NewTarget(t, c, up), r) == Child(t, r)
  {
  }

  /** An edit leaves every path that is neither above nor below the entry it touches. */
  lemma {:induction false} EditFrame(root: Json, c: Change, up: FloatStep, q: Path)
    requires Listable(root, c) && !c.kind.Removed? && Unrelated(Place(root, c), q)
    ensures Resolve(Edited(root, c, up), q) == Resolve(root, q)
  {
    hide Put, Resolve, Child, NewTarget, Zero;
    TargetFound(root, c);
    var t := Resolve(root, Target(c)).value;
    var s := LastStep(t, c);
    forall r | r != s ensures Child(NewTarget(t, c, up), r) == Child(t, r) { OneEntryDiffers(t, c, up, r); }
    assert Place(root, c) == Target(c) + [s];
    EntryFrame(root, Target(c), NewTarget(t, c, up), s, q);
  }

  /** A removed item leaves every path outside its list, and inside the list later items move up one place. */
  lemma {:induction false} RemovedFrame(root: Json, c: Change, up: FloatStep, q: Path)
    requires Listable(root, c) && c.kind.Removed?
    ensures Unrelated(Target(c), q) ==> Resolve(Edited(root, c, up), q) == Resolve(root, q)
    ensures forall j: nat :: Resolve(Edited(root, c, up), Target(c) + ([Index(j)] + q)) ==
                             Resolve(root, Target(c) + ([Index(if j < Last(c.path).index then j else j + 1)] + q))
  {
    hide Put, Zero, Resolve;
    TargetFound(root, c);
    var p, t := Target(c), Resolve(root, Target(c)).value;
    var w := NewTarget(t, c, up);
    if Unrelated(p, q) { PutFrame(root, p, w, q); }
    forall j: nat
        ensures Resolve(Put(root, p, w), p + ([Index(j)] + q)) == Resolve(root, p
        + ([Index(if j < Last(c.path).index then j else j + 1)] + q)) {
      var k := if j < Last(c.path).index then j else j + 1;
      PutResolve(root, p, w, [Index(j)] + q);
      ResolveAppend(root, p, [Index(k)] + q);
      MovedStep(t, w, Last(c.path).index, j, k, q);
    }
  }

  lemma {:induction false} MovedStep(t: Json, w: Json, i: nat, j: nat, k: nat, q: Path)
    requires t.Arr? && i < |t.items| && w == Arr(t.items[..i] + t.items[i + 1..]) && k == if j < i then j else j + 1
    ensures Resolve(w, [Index(j)] + q) == Resolve(t, [Index(k)] + q)
  {
    assert ([Index(j)] + q)[1..] == q && ([Index(k)] + q)[1..] == q;
    assert Child(w, Index(j)) == Child(t, Index(k));
  }

  /** What the touched entry becomes: the altered value, nothing, the added value, or a copy of the last item. */
  lemma {:induction false} EditEffect(root: Json, c: Change, up: FloatStep)
    requires Listable(root, c) && !c.kind.Removed?
    ensures c.kind.Changed? ==> Resolve(Edited(root, c, up), c.path) == Some(Altered(Resolve(root, c.path).value, up))
    ensures c.kind.Deleted? ==> Resolve(Edited(root, c, up), c.path) == None
    ensures c.kind.Added? ==> Resolve(Edited(root, c, up), Place(root, c)) == Some(Str("x"))
    ensures c.kind.Appended? ==>
        Resolve(Edited(root, c, up), Place(root, c)) ==
        Some(Resolve(root, c.path).value.items[|Resolve(root, c.path).value.items| - 1])
  {
    hide Put, Resolve, Altered, Zero, Child, NewTarget, Listable;
    TargetFound(root, c);
    var t := Resolve(root, Target(c)).value;
    PlaceAt(root, c);
    PutResolve(root, Target(c), NewTarget(t, c, up), [LastStep(t, c)]);
    OneStep(NewTarget(t, c, up), LastStep(t, c));
    NewEntry(t, c, up);
  }

  lemma {:induction false} PlaceAt(root: Json, c: Change)
    requires Listable(root, c) && !c.kind.Removed? && Resolve(root, Target(c)).Some?
        && Editable(Resolve(root, Target(c)).value, c)
    ensures Place(root, c) == Target(c) + [LastStep(Resolve(root, Target(c)).value, c)]
  {
    hide Resolve, Zero;
  }

  lemma {:induction false} NewEntry(t: Json, c: Change, up: FloatStep)
    requires Editable(t, c) && !c.kind.Removed?
    ensures var e := Child(NewTarget(t, c, up), LastStep(t, c));
            match c.kind
            case Changed => e == Some(Altered(Child(t, Last(c.path)).value, up))
            case Deleted => e == None
            case Added => e == Some(Str("x"))
            case Appended => e == Some(t.items[|t.items| - 1])
            case Removed => true
  {
    hide Altered;
  }

  lemma {:induction false} OneStep(v: Json, s: Step)
    ensures Resolve(v, [s]) == Child(v, s)
  {
    assert [s][1..] == [];
  }

  /**
   Every listed edit makes a different record, but for one case: adding the unknown key to an object that already
   has it with the added value. (Numbers under a changed path are taken to be int64.)
   */
  lemma {:induction false} EditAlters(root: Json, c: Change, up: FloatStep)
    requires Listable(root, c)
        && (c.kind.Changed? && Resolve(root, c.path).value.Num? ==> Int64(Resolve(root, c.path).value.number))
    ensures Edited(root, c, up) == root <==>
            c.kind.Added? && UNKNOWN_KEY in Resolve(root, c.path).value.members
                && Resolve(root, c.path).value.members[UNKNOWN_KEY] == Str("x")
  {
    hide Put, Resolve, Altered, Zero;
    TargetFound(root, c);
    var t := Resolve(root, Target(c)).value;
    PutSame(root, Target(c), NewTarget(t, c, up));
    match c.kind
    case Changed =>
      AlteredDiffers(Resolve(root, c.path).value, up);
      SameChild(t, Last(c.path), Altered(Child(t, Last(c.path)).value, up));
    case Deleted => assert Last(c.path).key !in (t.members - {Last(c.path).key});
    case Removed => assert |NewTarget(t, c, up).items| == |t.items| - 1;
    case Appended => assert |NewTarget(t, c, up).items| == |t.items| + 1;
    case Added => assert t.members[UNKNOWN_KEY := Str("x")] == t.members <==>
        UNKNOWN_KEY in t.members
        && t.members[UNKNOWN_KEY] == Str("x") by { SameEntry(t.members, UNKNOWN_KEY, Str("x")); }
  }

  /** The one case there is: a listed edit after which nothing has changed. */
  lemma {:induction false} AddedTwice(up: FloatStep)
    ensures var root := Obj(map[UNKNOWN_KEY := Str("x")]);
            Listable(root, Change(Added, [])) && Change(Added, []) in Changes(root, [])
                && Edited(root, Change(Added, []), up) == root
  {
    hide Zero, Changes;
    var root := Obj(map[UNKNOWN_KEY := Str("x")]);
    assert Resolve(root, []) == Some(root);
    ListedIff(root, Change(Added, []));
    EditAlters(root, Change(Added, []), up);
  }

  lemma {:induction false} SameEntry(m: map<string, Json>, k: string, v: Json)
    ensures m[k := v] == m <==> k in m && m[k] == v
  {
    if m[k := v] == m { assert k in m[k := v] && m[k := v][k] == v; }
  }

  // ----- What a change and a zero are -----

  /** A changed scalar keeps its kind: a flag flips, an int64 grows by one, a hash stays a hash, null becomes text. */
  lemma {:induction false} AlteredKind(v: Json, up: FloatStep)
    ensures v.Null? ==> Altered(v, up) == Str("x")
    ensures v.Bool? ==> Altered(v, up) == Bool(!v.value)
    ensures v.Num? ==> Altered(v, up).Num?
    ensures v.Num? && -9223372036854775808 <= v.number < 9223372036854775807 ==> Altered(v, up).number == v.number + 1
    ensures v.Str? ==> Altered(v, up).Str?
    ensures v.Str? && !ValidHash(v.text) ==> Altered(v, up).text == v.text + "x"
    ensures v.Str? && ValidHash(v.text) ==>
        ValidHash(Altered(v, up).text) && Altered(v, up).text[1..] == v.text[1..] && Altered(v, up).text[0] != v.text[0]
  {
    if v.Str? && ValidHash(v.text) { HashKept(v.text); }
  }

  lemma {:induction false} HashKept(s: string)
    requires ValidHash(s)
    ensures ValidHash("0" + s[1..]) && ValidHash("f" + s[1..])
    ensures ("0" + s[1..])[0] == '0' && ("f" + s[1..])[0] == 'f'
    ensures ("0" + s[1..])[1..] == s[1..] && ("f" + s[1..])[1..] == s[1..]
  {
  }

  /** A scalar that says nothing. */
  ghost predicate Empty(v: Json) { v == Null || v == Bool(false) || v == Num(0) || v == Str("") }

  /** A value means nothing exactly when every scalar inside it says nothing. */
  lemma {:induction false} ZeroIff(v: Json)
    ensures Zero(v) <==>
            forall p :: Resolve(v, p).Some? && !Container(Resolve(v, p).value) ==> Empty(Resolve(v, p).value)
    decreases v
  {
    if Zero(v) {
      forall p | Resolve(v, p).Some? && !Container(Resolve(v, p).value) ensures Empty(Resolve(v, p).value) {
        ZeroInside(v, p);
      }
    } else {
      var p := SomethingInside(v);
      assert Resolve(v, p).Some? && !Container(Resolve(v, p).value);
    }
  }

  lemma {:induction false} ZeroInside(v: Json, p: Path)
    requires Zero(v) && Resolve(v, p).Some?
    ensures Zero(Resolve(v, p).value)
    decreases |p|
  {
    if p != [] { ZeroInside(Child(v, p[0]).value, p[1..]); }
  }

  lemma {:induction false} SomethingInside(v: Json) returns (p: Path)
    requires !Zero(v)
    ensures Resolve(v, p).Some? && !Container(Resolve(v, p).value) && !Empty(Resolve(v, p).value)
    decreases v
  {
    match v
    case Arr(items) =>
      var i: nat :| i < |items| && !Zero(items[i]);
      var q := SomethingInside(items[i]);
      p := [Index(i)] + q;
      assert p[1..] == q;
    case Obj(members) =>
      var k :| k in members && !Zero(members[k]);
      var q := SomethingInside(members[k]);
      p := [Key(k)] + q;
      assert p[1..] == q;
    case _ => p := [];
  }

  /** The key an object is given, and under it the value "x". */
  lemma {:induction false} AddedKey(root: Json, c: Change, up: FloatStep)
    requires Listable(root, c) && c.kind.Added?
    ensures Resolve(Edited(root, c, up), c.path + [Key("tamper_test_unknown_key")]) == Some(Str("x"))
  {
    hide Put, Resolve, Edited, Zero, Listable;
    EditEffect(root, c, up);
  }
}
