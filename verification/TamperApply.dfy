/**
 tamperApply as it runs: the record is decoded into maps and slices held by reference, one of them is edited in
 place, and the result is read back (tamper.go).
 */
module TamperApply {
  import opened Text
  import opened CanonicalJson
  import opened Tamper
  import opened TamperEdit

  /** `any` as encoding/json decodes it: scalars by value, maps and slices by reference. */
  datatype Any = Scalar(value: Json) | Ref(node: Node)

  datatype Content = Entries(entries: map<string, Any>) | Elements(elements: seq<Any>)

  /** A map or a slice: what every holder of the reference sees. */
  class Node {
    var content: Content

    constructor (content: Content)
      ensures this.content == content
    {
      this.content := content;
    }
  }

  /** The entry of a map or slice at a step. */
  function Entry(c: Content, r: Step): Option<Any> {
    match r
    case Key(k) => if c.Entries? && k in c.entries then Some(c.entries[k]) else None
    case Index(i) => if c.Elements? && i < |c.elements| then Some(c.elements[i]) else None
  }

  // ----- What a decoded value reads as -----

  /** The references a decoded value is made of. */
  datatype Shape = Leaf | Inner(node: Node, kids: map<Step, Shape>)

  ghost function Refs(s: Shape): (refs: set<Node>)
    ensures s.Inner? ==> s.node in refs && forall r :: r in s.kids ==> Refs(s.kids[r]) <= refs
  {
    match s
    case Leaf => {}
    case Inner(n, kids) =>
      var inside := set r, o | r in kids && o in Refs(kids[r]) :: o;
      assert forall r :: r in kids ==> Refs(kids[r]) <= inside;
      {n} + inside
  }

  /** No reference is met twice. */
  ghost predicate Tree(s: Shape) {
    s.Inner? ==>
      && (forall r :: r in s.kids ==> s.node !in Refs(s.kids[r]) && Tree(s.kids[r]))
      && (forall r, q :: r in s.kids && q in s.kids && r != q ==> Refs(s.kids[r]) !! Refs(s.kids[q]))
  }

  /** The contents of some maps and slices at one moment. */
  type Store = map<Node, Content>

  ghost function Snapshot(refs: set<Node>): Store
    reads refs
  {
    map n | n in refs :: n.content
  }

  /** A map or slice has the entries of a JSON object or list. */
  ghost predicate Alike(c: Content, steps: set<Step>, v: Json) {
    && (if c.Entries? then v.Obj? else v.Arr?)
    && (c.Elements? ==> |c.elements| == |v.items|)
    && (forall r :: r in steps <==> Entry(c, r).Some?) && (forall r :: r in steps <==> Child(v, r).Some?)
  }

  /** A decoded value of a shape reads as a JSON tree. */
  ghost predicate Holds(h: Store, a: Any, s: Shape, v: Json)
    decreases s
  {
    match s
    case Leaf => a == Scalar(v) && !Container(v)
    case Inner(n, kids) =>
      && a == Ref(n) && n in h && Alike(h[n], kids.Keys, v)
      && forall r :: r in kids ==> Holds(h, Entry(h[n], r).value, kids[r], Child(v, r).value)
  }

  lemma {:induction false} KidsHold(h: Store, n: Node, kids: map<Step, Shape>, v: Json, r: Step)
    requires Holds(h, Ref(n), Inner(n, kids), v) && r in kids
    ensures n in h && Alike(h[n], kids.Keys, v) && Child(v, r).Some? && Entry(h[n], r).Some?
        && kids.Keys + {r} == kids.Keys
    ensures Holds(h, Entry(h[n], r).value, kids[r], Child(v, r).value)
  {
  }

  lemma {:induction false} HoldsFrom(h: Store, n: Node, kids: map<Step, Shape>, v: Json)
    requires n in h && Alike(h[n], kids.Keys, v) && forall r :: r in kids ==>
        Holds(h, Entry(h[n], r).value, kids[r], Child(v, r).value)
    ensures Holds(h, Ref(n), Inner(n, kids), v)
  {
  }

  /** What a value reads as depends on its own references only. */
  lemma {:induction false} HoldsAgree(h: Store, h': Store, a: Any, s: Shape, v: Json)
    requires Holds(h, a, s, v) && forall n :: n in Refs(s) && n in h ==> n in h' && h'[n] == h[n]
    ensures Holds(h', a, s, v)
    decreases s
  {
    if s.Inner? { InnerAgree(h, h', s.node, s.kids, v); }
  }

  lemma {:induction false} InnerAgree(h: Store, h': Store, n: Node, kids: map<Step, Shape>, v: Json)
    requires Holds(h, Ref(n), Inner(n, kids), v) && forall m :: m in Refs(Inner(n, kids)) && m in h ==>
        m in h' && h'[m] == h[m]
    ensures Holds(h', Ref(n), Inner(n, kids), v)
    decreases Inner(n, kids), 0
  {
    hide Holds, Alike, Entry, Child;
    NodeAlike(h, n, kids, v);
    forall r | r in kids ensures Holds(h', Entry(h[n], r).value, kids[r], Child(v, r).value) {
      KidsHold(h, n, kids, v, r);
      assert Refs(Inner(n, kids).kids[r]) <= Refs(Inner(n, kids));
      HoldsAgree(h, h', Entry(h[n], r).value, kids[r], Child(v, r).value);
    }
    HoldsFrom(h', n, kids, v);
  }

  lemma {:induction false} NodeAlike(h: Store, n: Node, kids: map<Step, Shape>, v: Json)
    requires Holds(h, Ref(n), Inner(n, kids), v)
    ensures n in h && Alike(h[n], kids.Keys, v)
    ensures forall r :: r in kids ==>
        Entry(h[n], r).Some? && Child(v, r).Some? && Holds(h, Entry(h[n], r).value, kids[r], Child(v, r).value)
  {
  }

  // ----- Reading after an edit -----

  ghost function ShapeAt(s: Shape, p: Path): Option<Shape>
    decreases |p|
  {
    if p == [] then Some(s) else if s.Inner? && p[0] in s.kids then ShapeAt(s.kids[p[0]], p[1..]) else None
  }

  ghost function PutShape(s: Shape, p: Path, x: Shape): Shape
    requires ShapeAt(s, p).Some?
    decreases |p|
  {
    if p == [] then x else Inner(s.node, s.kids[p[0] := PutShape(s.kids[p[0]], p[1..], x)])
  }

  lemma {:induction false} RefIsIn(s: Shape, p: Path)
    requires ShapeAt(s, p).Some? && ShapeAt(s, p).value.Inner?
    ensures ShapeAt(s, p).value.node in Refs(s)
    decreases |p|
  {
    if p != [] {
      RefIsIn(s.kids[p[0]], p[1..]);
      assert Refs(s.kids[p[0]]) <= Refs(s);
    }
  }

  /** One entry of a value now reads as another; the rest is as before. */
  lemma {:induction false} OneEntryHolds(h: Store, h': Store, n: Node, kids: map<Step, Shape>, v: Json, r: Step,
      x: Shape, w: Json)
    requires Holds(h, Ref(n), Inner(n, kids), v) && r in kids && n in h' && Alike(h'[n], kids.Keys, v)
    requires forall q :: q in kids && q != r ==>
        Entry(h'[n], q) == Entry(h[n], q) && Holds(h', Entry(h[n], q).value, kids[q], Child(v, q).value)
    requires Holds(h', Entry(h'[n], r).value, x, w)
    ensures Holds(h', Ref(n), Inner(n, kids[r := x]), WithChild(v, r, w))
  {
    hide Holds;
    var t, u := kids[r := x], WithChild(v, r, w);
    assert Child(v, r).Some? && t.Keys == kids.Keys by { KidsHold(h, n, kids, v, r); }
    forall q | q in t ensures Holds(h', Entry(h'[n], q).value, t[q], Child(u, q).value) { ChildWithChild(v, r, w, q); }
    AlikeWithChild(h'[n], kids.Keys, v, r, w);
    HoldsFrom(h', n, t, u);
  }

  lemma {:induction false} AlikeWithChild(c: Content, steps: set<Step>, v: Json, r: Step, w: Json)
    requires Alike(c, steps, v) && Child(v, r).Some?
    ensures Alike(c, steps, WithChild(v, r, w))
  {
    hide Child, WithChild, Entry;
    forall q ensures q in steps <==> Child(WithChild(v, r, w), q).Some? { ChildWithChild(v, r, w, q); }
    SameSize(v, r, w);
  }

  lemma {:induction false} SameSize(v: Json, r: Step, w: Json)
    requires Child(v, r).Some?
    ensures (WithChild(v, r, w).Obj? <==> v.Obj?) && (WithChild(v, r, w).Arr? <==> v.Arr?)
    ensures v.Arr? ==> |WithChild(v, r, w).items| == |v.items|
  {
  }

  /** Editing one map or slice of a tree, found at a path, changes what the whole reads as at that path only. */
  lemma {:induction false} Splice(h: Store, h': Store, a: Any, s: Shape, v: Json, p: Path, x: Shape, w: Json)
    requires Holds(h, a, s, v) && Tree(s) && ShapeAt(s, p).Some? && ShapeAt(s, p).value.Inner? && Resolve(v, p).Some?
    requires forall n :: n in Refs(s) && n in h && n != ShapeAt(s, p).value.node ==> n in h' && h'[n] == h[n]
    requires Holds(h', Ref(ShapeAt(s, p).value.node), x, w)
    ensures Holds(h', if p == [] then Ref(ShapeAt(s, p).value.node) else a, PutShape(s, p, x), Put(v, p, w))
    decreases |p|
  {
    hide Alike, Entry, Child, WithChild, Holds, Refs;
    if p != [] {
      var r, target := p[0], ShapeAt(s, p).value.node;
      var kid := s.kids[r];
      SelfIs(h, a, s, v);
      NodeAlike(h, s.node, s.kids, v);
      KidsHold(h, s.node, s.kids, v, r);
      RefIsIn(kid, p[1..]);
      Splice(h, h', Entry(h[s.node], r).value, kid, Child(v, r).value, p[1..], x, w);
      forall q | q in s.kids && q != r ensures Holds(h', Entry(h[s.node], q).value, s.kids[q], Child(v, q).value) {
        HoldsAgree(h, h', Entry(h[s.node], q).value, s.kids[q], Child(v, q).value);
      }
      ShapeSelf(h, Entry(h[s.node], r).value, kid, Child(v, r).value, p[1..]);
      OneEntryHolds(h, h', s.node, s.kids, v, r, PutShape(kid, p[1..], x), Put(Child(v, r).value, p[1..], w));
    }
  }

  lemma {:induction false} SelfIs(h: Store, a: Any, s: Shape, v: Json)
    requires Holds(h, a, s, v) && s.Inner?
    ensures a == Ref(s.node) && s == Inner(s.node, s.kids)
  {
  }

  /** A value is the reference its shape says. */
  lemma {:induction false} ShapeSelf(h: Store, a: Any, s: Shape, v: Json, p: Path)
    requires Holds(h, a, s, v) && ShapeAt(s, p).Some? && ShapeAt(s, p).value.Inner?
    ensures p == [] ==> a == Ref(ShapeAt(s, p).value.node)
  {
  }

  // ----- One map or slice edited -----

  function AlteredAny(a: Any, up: FloatStep): Any { if a.Scalar? then Scalar(Altered(a.value, up)) else a }

  /** What the map or slice an edit changes holds afterwards. */
  function NewContent(t: Content, c: Change, up: FloatStep): Content
    requires EditableContent(t, c)
  {
    match c.kind
    case Added => Entries(t.entries[UNKNOWN_KEY := Scalar(Str("x"))])
    case Appended => Elements(t.elements + [t.elements[|t.elements| - 1]])
    case Deleted => Entries(t.entries - {Last(c.path).key})
    case Removed => Elements(t.elements[..Last(c.path).index] + t.elements[Last(c.path).index + 1..])
    case Changed =>
      if t.Entries? then Entries(t.entries[Last(c.path).key := AlteredAny(t.entries[Last(c.path).key], up)])
      else Elements(t.elements[Last(c.path).index := AlteredAny(t.elements[Last(c.path).index], up)])
  }

  predicate EditableContent(t: Content, c: Change) {
    && (c.kind.Appended? ==> t.Elements? && t.elements != [])
    && (c.kind.Added? ==> t.Entries?)
    && (c.kind.Changed? || c.kind.Deleted? || c.kind.Removed? ==> c.path != [] && Entry(t, Last(c.path)).Some?)
    && (c.kind.Deleted? ==> Last(c.path).Key?) && (c.kind.Removed? ==> Last(c.path).Index?)
  }

  ghost function NewKids(kids: map<Step, Shape>, t: Content, c: Change): map<Step, Shape>
    requires EditableContent(t, c) && forall r :: r in kids <==> Entry(t, r).Some?
  {
    match c.kind
    case Added => kids[Key(UNKNOWN_KEY) := Leaf]
    case Appended =>
      assert Entry(t, Index(|t.elements| - 1)).Some?;
      kids[Index(|t.elements|) := kids[Index(|t.elements| - 1)]]
    case Deleted => kids - {Last(c.path)}
    case Removed =>
      assert forall r :: r in kids ==> Entry(t, r).Some?;
      assert forall i: nat :: i < |t.elements| ==> Entry(t, Index(i)).Some?;
      map r | r in kids
          && r.index + 1 < |t.elements| :: kids[Index(if r.index < Last(c.path).index then r.index else r.index + 1)]
    case Changed => kids
  }

  lemma {:induction false} SameEditable(t: Content, steps: set<Step>, v: Json, c: Change)
    requires Alike(t, steps, v) && Editable(v, c)
    ensures EditableContent(t, c)
  {
    hide Entry, Child;
  }

  /** A decoded value that reads as a scalar is that scalar. */
  lemma {:induction false} ScalarHolds(h: Store, a: Any, s: Shape, v: Json)
    requires !Container(v)
    ensures Holds(h, a, s, v) <==> a == Scalar(v) && s == Leaf
  {
  }

  /** Where an entry of the edited map or slice came from: the same step, or one place on. */
  ghost function From(t: Content, c: Change, r: Step): Step
    requires EditableContent(t, c)
  {
    match c.kind
    case Removed => if r.Index? && r.index >= Last(c.path).index then Index(r.index + 1) else r
    case Appended => if r == Index(|t.elements|) then Index(|t.elements| - 1) else r
    case _ => r
  }

  lemma {:induction false} EntryFrom(t: Content, c: Change, up: FloatStep, r: Step)
    requires EditableContent(t, c) && (c.kind.Added? ==> r != Key(UNKNOWN_KEY))
        && (c.kind.Changed? ==> r != Last(c.path))
    requires c.kind.Deleted? ==> r != Last(c.path)
    ensures Entry(NewContent(t, c, up), r) == Entry(t, From(t, c, r))
  {
    hide AlteredAny;
  }

  lemma {:induction false} ChildFrom(t: Content, steps: set<Step>, v: Json, c: Change, up: FloatStep, r: Step)
    requires Alike(t, steps, v) && Editable(v, c) && EditableContent(t, c)
    requires (c.kind.Added? ==> r != Key(UNKNOWN_KEY)) && (c.kind.Changed? || c.kind.Deleted? ==> r != Last(c.path))
    ensures Child(NewTarget(v, c, up), r) == Child(v, From(t, c, r))
  {
    hide Altered;
    if c.kind.Changed? { ChildWithChild(v, Last(c.path), Altered(Child(v, Last(c.path)).value, up), r); }
  }

  /** The parts of the edited map or slice are parts of the old one. */
  lemma {:induction false} KidFrom(t: Content, kids: map<Step, Shape>, c: Change, r: Step)
    requires EditableContent(t, c) && (forall q :: q in kids <==> Entry(t, q).Some?)
    requires (c.kind.Added? ==> r != Key(UNKNOWN_KEY)) && (c.kind.Deleted? ==> r != Last(c.path))
    ensures r in NewKids(kids, t, c) <==> From(t, c, r) in kids
    ensures r in NewKids(kids, t, c) ==> NewKids(kids, t, c)[r] == kids[From(t, c, r)]
  {
  }

  /** The entry an edit sets or takes away. */
  lemma {:induction false} TouchedEntry(t: Content, kids: map<Step, Shape>, v: Json, c: Change, up: FloatStep, r: Step)
    requires Alike(t, kids.Keys, v) && Editable(v, c) && EditableContent(t, c)
    requires (c.kind.Added? && r == Key(UNKNOWN_KEY)) || ((c.kind.Changed? || c.kind.Deleted?) && r == Last(c.path))
    ensures c.kind.Deleted? ==>
        Entry(NewContent(t, c, up), r).None? && Child(NewTarget(v, c, up), r).None? && r !in NewKids(kids, t, c)
    ensures !c.kind.Deleted? ==>
        Entry(NewContent(t, c, up), r).Some? && Child(NewTarget(v, c, up), r).Some? && r in NewKids(kids, t, c)
  {
    hide Altered, AlteredAny;
  }

  lemma {:induction false} NewSize(t: Content, steps: set<Step>, v: Json, c: Change, up: FloatStep)
    requires Alike(t, steps, v) && Editable(v, c) && EditableContent(t, c)
    ensures var u, w := NewContent(t, c, up), NewTarget(v, c, up);
            (if u.Entries? then w.Obj? else w.Arr?) && (u.Elements? ==> |u.elements| == |w.items|)
  {
    hide Altered, AlteredAny;
  }

  lemma {:induction false} NewAlike(t: Content, kids: map<Step, Shape>, v: Json, c: Change, up: FloatStep)
    requires Alike(t, kids.Keys, v) && Editable(v, c) && EditableContent(t, c)
    ensures Alike(NewContent(t, c, up), NewKids(kids, t, c).Keys, NewTarget(v, c, up))
  {
    var u, w, new' := NewContent(t, c, up), NewTarget(v, c, up), NewKids(kids, t, c);
    hide NewContent, NewTarget, NewKids, From, Entry, Child, Editable, EditableContent;
    NewSize(t, kids.Keys, v, c, up);
    forall r ensures r in new'.Keys <==> Entry(u, r).Some? ensures r in new'.Keys <==> Child(w, r).Some? {
      if (c.kind.Added? && r == Key(UNKNOWN_KEY)) || ((c.kind.Changed? || c.kind.Deleted?) && r == Last(c.path)) {
        TouchedEntry(t, kids, v, c, up, r);
      } else {
        KidFrom(t, kids, c, r);
        EntryFrom(t, c, up, r);
        ChildFrom(t, kids.Keys, v, c, up, r);
      }
    }
  }

  /** After the edit the map or slice reads as the edited object or list. */
  lemma {:induction false} EditedHolds(h: Store, h': Store, n: Node, m: Node, kids: map<Step, Shape>, v: Json,
      c: Change, up: FloatStep)
    requires Holds(h, Ref(n), Inner(n, kids), v) && Editable(v, c)
        && (c.kind.Changed? ==> !Container(Child(v, Last(c.path)).value))
    requires n in h && EditableContent(h[n], c) && m in h' && h'[m] == NewContent(h[n], c, up)
    requires forall q :: q in kids ==>
        Entry(h[n], q).Some? && Child(v, q).Some? && Holds(h', Entry(h[n], q).value, kids[q], Child(v, q).value)
    ensures Alike(h[n], kids.Keys, v) && Holds(h', Ref(m), Inner(m, NewKids(kids, h[n], c)), NewTarget(v, c, up))
  {
    NodeAlike(h, n, kids, v);
    hide Holds, Altered;
    var t := h[n];
    var u, w := NewKids(kids, t, c), NewTarget(v, c, up);
    NewAlike(t, kids, v, c, up);
    forall r | r in u ensures Entry(h'[m], r).Some? && Child(w, r).Some?
        && Holds(h', Entry(h'[m], r).value, u[r], Child(w, r).value) {
      if c.kind.Added? && r == Key(UNKNOWN_KEY) {
        ScalarHolds(h', Scalar(Str("x")), Leaf, Str("x"));
      } else if c.kind.Changed? && r == Last(c.path) {
        ChangedEntry(h', t, kids, v, c, up);
      } else {
        if c.kind.Deleted? { TouchedEntry(t, kids, v, c, up, Last(c.path)); }
        KidFrom(t, kids, c, r);
        EntryFrom(t, c, up, r);
        ChildFrom(t, kids.Keys, v, c, up, r);
      }
    }
    HoldsFrom(h', m, u, w);
  }

  lemma {:induction false} ChangedEntry(h: Store, t: Content, kids: map<Step, Shape>, v: Json, c: Change, up: FloatStep)
    requires Alike(t, kids.Keys, v) && Editable(v, c) && EditableContent(t, c) && c.kind.Changed?
        && !Container(Child(v, Last(c.path)).value)
    requires Holds(h, Entry(t, Last(c.path)).value, kids[Last(c.path)], Child(v, Last(c.path)).value)
    ensures var r := Last(c.path);
            Entry(NewContent(t, c, up), r).Some? && Child(NewTarget(v, c, up), r).Some?
            && Holds(h, Entry(NewContent(t, c, up), r).value, NewKids(kids, t, c)[r],
                Child(NewTarget(v, c, up), r).value)
  {
    hide Holds;
    var r := Last(c.path);
    var old', new' := Child(v, r).value, Altered(Child(v, r).value, up);
    ScalarHolds(h, Entry(t, r).value, kids[r], old');
    AlteredDiffers(old', up);
    ScalarHolds(h, Scalar(new'), Leaf, new');
  }

  // ----- The edit in place -----

  /** One step down a decoded value. */
  lemma {:induction false} Descend(h: Store, s: Shape, v: Json, p: Path, a: Any, r: Step)
    requires ShapeAt(s, p).Some? && Resolve(v, p).Some? && Holds(h, a, ShapeAt(s, p).value, Resolve(v, p).value)
    requires Resolve(v, p + [r]).Some?
    ensures ShapeAt(s, p).value.Inner? && a == Ref(ShapeAt(s, p).value.node) && a.node in h && Entry(h[a.node], r).Some?
    ensures ShapeAt(s, p + [r]).Some?
        && Holds(h, Entry(h[a.node], r).value, ShapeAt(s, p + [r]).value, Resolve(v, p + [r]).value)
    ensures ShapeAt(s, p + [r]) == Some(ShapeAt(s, p).value.kids[r]) && r in ShapeAt(s, p).value.kids
    ensures Child(Resolve(v, p).value, r) == Resolve(v, p + [r])
  {
    ResolveAppend(v, p, [r]);
    OneStep(Resolve(v, p).value, r);
    ShapeStep(s, p, r);
  }

  lemma {:induction false} ShapeStep(s: Shape, p: Path, r: Step)
    requires ShapeAt(s, p).Some?
    ensures var t := ShapeAt(s, p).value;
            ShapeAt(s, p + [r]) == if t.Inner? && r in t.kids then Some(t.kids[r]) else None
    decreases |p|
  {
    if p == [] {
      assert p + [r] == [r] && [r][1..] == [];
    } else {
      assert (p + [r])[1..] == p[1..] + [r];
      ShapeStep(s.kids[p[0]], p[1..], r);
    }
  }

  lemma {:induction false} TreeAt(s: Shape, p: Path)
    requires Tree(s) && ShapeAt(s, p).Some?
    ensures Tree(ShapeAt(s, p).value) && Refs(ShapeAt(s, p).value) <= Refs(s)
    decreases |p|
  {
    if p != [] {
      TreeAt(s.kids[p[0]], p[1..]);
      assert Refs(s.kids[p[0]]) <= Refs(s);
    }
  }

  /** The parts of an edited map or slice read as before. */
  lemma {:induction false} KidsUntouched(h: Store, h': Store, n: Node, kids: map<Step, Shape>, v: Json)
    requires Holds(h, Ref(n), Inner(n, kids), v) && Tree(Inner(n, kids))
    requires forall m :: m in Refs(Inner(n, kids)) && m in h && m != n ==> m in h' && h'[m] == h[m]
    ensures n in h && forall q :: q in kids ==>
        Entry(h[n], q).Some? && Child(v, q).Some? && Holds(h', Entry(h[n], q).value, kids[q], Child(v, q).value)
  {
    NodeAlike(h, n, kids, v);
    hide Holds, Alike, Entry, Child;
    forall q | q in kids ensures Holds(h', Entry(h[n], q).value, kids[q], Child(v, q).value) {
      assert Refs(Inner(n, kids).kids[q]) <= Refs(Inner(n, kids)) && n !in Refs(Inner(n, kids).kids[q]);
      HoldsAgree(h, h', Entry(h[n], q).value, kids[q], Child(v, q).value);
    }
  }

  lemma {:induction false} PutStep(v: Json, p: Path, r: Step, w: Json)
    requires Resolve(v, p + [r]).Some? && Resolve(v, p).Some?
    ensures Child(Resolve(v, p).value, r).Some? && Put(v, p + [r], w) == Put(v, p, WithChild(Resolve(v, p).value, r, w))
    decreases |p|
  {
    if p == [] {
      assert p + [r] == [r] && [r][1..] == [];
    } else {
      assert (p + [r])[1..] == p[1..] + [r] && (p + [r])[0] == p[0];
      PutStep(Child(v, p[0]).value, p[1..], r, w);
    }
  }

  /** The edit's last step from its target, as the loop reaches it. */
  method FindTarget(root: Any, ghost s: Shape, ghost v: Json, target: Path) returns (grand: Any, parent: Any)
    requires Holds(Snapshot(Refs(s)), root, s, v) && Resolve(v, target).Some?
    ensures ShapeAt(s, target).Some?
        && Holds(Snapshot(Refs(s)), parent, ShapeAt(s, target).value, Resolve(v, target).value)
    ensures Snapshot(Refs(s)) == old(Snapshot(Refs(s)))
    ensures target == [] ==> parent == root
    ensures target != [] ==> ShapeAt(s, Init(target)).Some? && Resolve(v, Init(target)).Some?
                             && Holds(Snapshot(Refs(s)), grand, ShapeAt(s, Init(target)).value,
                                 Resolve(v, Init(target)).value)
  {
    hide Holds, Resolve, ShapeAt, Refs, Child, Tree;
    ghost var h := Snapshot(Refs(s));
    grand, parent := root, root;
    Whole(s, v);
    assert target[..0] == [];
    for i := 0 to |target|
      invariant ShapeAt(s, target[..i]).Some? && Resolve(v, target[..i]).Some?
      invariant Holds(h, parent, ShapeAt(s, target[..i]).value, Resolve(v, target[..i]).value)
      invariant i == 0 ==> parent == root
      invariant i > 0 ==>
        ShapeAt(s, target[..i - 1]).Some? && Resolve(v, target[..i - 1]).Some?
        && Holds(h, grand, ShapeAt(s, target[..i - 1]).value, Resolve(v, target[..i - 1]).value)
    {
      assert target[..i + 1] == target[..i] + [target[i]];
      PrefixResolves(v, target, i + 1);
      Descend(h, s, v, target[..i], parent, target[i]);
      grand := parent;
      match target[i]
      case Key(k) => parent := parent.node.content.entries[k];
      case Index(j) => parent := parent.node.content.elements[j];
    }
    assert target[..|target|] == target;
  }

  lemma {:induction false} Whole(s: Shape, v: Json)
    ensures ShapeAt(s, []) == Some(s) && Resolve(v, []) == Some(v)
  {
  }

  lemma {:induction false} PrefixResolves(v: Json, p: Path, n: nat)
    requires n <= |p| && Resolve(v, p).Some?
    ensures Resolve(v, p[..n]).Some?
  {
    assert p == p[..n] + p[n..];
    ResolveAppend(v, p[..n], p[n..]);
  }

  /** Sets one entry of a map, deletes one, or sets one item of a slice, in place. */
  method EditContent(node: Node, c: Change, up: FloatStep)
    requires EditableContent(node.content, c) && !c.kind.Appended? && !c.kind.Removed?
    modifies node
    ensures node.content == NewContent(old(node.content), c, up)
  {
    if c.kind.Added? {
      node.content := Entries(node.content.entries[UNKNOWN_KEY := Scalar(Str("x"))]);
    } else {
      var s := Last(c.path);
      if s.Index? {
        var items := node.content.elements;
        node.content := Elements(items[s.index := AlteredAny(items[s.index], up)]);
      } else {
        var m := node.content.entries;
        if c.kind.Deleted? {
          node.content := Entries(m - {s.key});
        } else {
          node.content := Entries(m[s.key := AlteredAny(m[s.key], up)]);
        }
      }
    }
  }

  /** A longer or shorter list is a new slice. */
  method RebuildList(node: Node, c: Change, up: FloatStep) returns (l: Node)
    requires EditableContent(node.content, c) && (c.kind.Appended? || c.kind.Removed?)
    ensures fresh(l) && l.content == NewContent(node.content, c, up)
  {
    var items := node.content.elements;
    if c.kind.Appended? {
      items := items + [items[|items| - 1]];
    } else {
      var i := Last(c.path).index;
      items := items[..i] + items[i + 1..];
    }
    l := new Node(Elements(items));
  }

  function SetEntry(c: Content, r: Step, a: Any): Content
    requires Entry(c, r).Some?
  {
    match r
    case Key(k) => Entries(c.entries[k := a])
    case Index(i) => Elements(c.elements[i := a])
  }

  lemma {:induction false} SetEntryAlike(c: Content, r: Step, a: Any, steps: set<Step>, v: Json)
    requires Alike(c, steps, v) && Entry(c, r).Some?
    ensures Alike(SetEntry(c, r, a), steps, v)
    ensures forall q :: Entry(SetEntry(c, r, a), q) == if q == r then Some(a) else Entry(c, q)
  {
    hide Child;
  }

  /** tamperReplace: the rebuilt list takes the old one's place in its parent, or becomes the root. */
  method TamperReplace(root: Any, grand: Any, last: Step, l: Node, atRoot: bool) returns (out: Any)
    requires !atRoot ==> grand.Ref? && Entry(grand.node.content, last).Some?
    modifies if !atRoot && grand.Ref? then {grand.node} else {}
    ensures atRoot ==> out == Ref(l)
    ensures !atRoot ==> out == root && grand.node.content == SetEntry(old(grand.node.content), last, Ref(l))
  {
    if atRoot {
      return Ref(l);
    }
    if last.Index? {
      grand.node.content := Elements(grand.node.content.elements[last.index := Ref(l)]);
    } else {
      grand.node.content := Entries(grand.node.content.entries[last.key := Ref(l)]);
    }
    return root;
  }

  /** What an edit's target is in the store. */
  lemma {:induction false} TargetNode(h: Store, a: Any, s: Shape, v: Json, c: Change)
    requires Holds(h, a, s, v) && Editable(v, c)
    ensures s.Inner? && a == Ref(s.node) && s.node in h && EditableContent(h[s.node], c) && s == Inner(s.node, s.kids)
    ensures Alike(h[s.node], s.kids.Keys, v)
  {
    if s.Inner? { SameEditable(h[s.node], s.kids.Keys, v, c); }
  }

  lemma {:induction false} TargetIsPath(v: Json, c: Change)
    requires Listable(v, c)
    ensures (c.kind.Changed? || c.kind.Deleted? || c.kind.Removed?) <==> !(c.kind.Added? || c.kind.Appended?)
    ensures !(c.kind.Added? || c.kind.Appended?) ==> c.path != []
    ensures c.kind.Changed? ==> !Container(Resolve(v, c.path).value)
  {
  }

  /** Every edit but those of a list's length: one map or slice changes in place. */
  method EditEntry(root: Any, ghost s: Shape, ghost v: Json, parent: Any, c: Change, up: FloatStep)
      returns (ghost t: Shape)
    requires Tree(s) && Holds(Snapshot(Refs(s)), root, s, v) && Listable(v, c) && !c.kind.Appended? && !c.kind.Removed?
    requires Resolve(v, Target(c)).Some? && Editable(Resolve(v, Target(c)).value, c)
        && (Target(c) == [] ==> parent == root)
    requires c.kind.Changed? ==> !Container(Child(Resolve(v, Target(c)).value, Last(c.path)).value)
    requires ShapeAt(s, Target(c)).Some?
        && Holds(Snapshot(Refs(s)), parent, ShapeAt(s, Target(c)).value, Resolve(v, Target(c)).value)
    modifies Refs(s)
    ensures Holds(Snapshot(Refs(t)), root, t, Put(v, Target(c), NewTarget(Resolve(v, Target(c)).value, c, up)))
  {
    hide Holds, Resolve, ShapeAt, Tree, Listable, Editable, NewContent, NewTarget, NewKids, EditableContent, Alike,
        Put, PutShape, Refs;
    ghost var h := Snapshot(Refs(s));
    ghost var p := Target(c);
    ghost var sub, w := ShapeAt(s, p).value, Resolve(v, p).value;
    TargetNode(h, parent, sub, w, c);
    TreeAt(s, p);
    assert sub.node in Refs(s) by { RefIsIn(s, p); }
    EditContent(parent.node, c, up);
    ghost var h' := Snapshot(Refs(s));
    KidsUntouched(h, h', sub.node, sub.kids, w);
    EditedHolds(h, h', sub.node, sub.node, sub.kids, w, c, up);
    ghost var x := Inner(sub.node, NewKids(sub.kids, h[sub.node], c));
    Splice(h, h', root, s, v, p, x, NewTarget(w, c, up));
    t := PutShape(s, p, x);
    HoldsAgree(h', Snapshot(Refs(t)), root, t, Put(v, p, NewTarget(w, c, up)));
  }

  /** The parent of a list stands one step above it. */
  lemma {:induction false} ParentOf(h: Store, s: Shape, v: Json, p: Path, grand: Any)
    requires p != [] && ShapeAt(s, p).Some? && Resolve(v, p).Some? && Tree(s)
    requires ShapeAt(s, Init(p)).Some? && Resolve(v, Init(p)).Some?
        && Holds(h, grand, ShapeAt(s, Init(p)).value, Resolve(v, Init(p)).value)
    ensures var g := ShapeAt(s, Init(p)).value;
            && g.Inner? && grand == Ref(g.node) && g.node in h && Entry(h[g.node], Last(p)).Some?
                && g == Inner(g.node, g.kids) && Tree(g)
            && Last(p) in g.kids && g.kids[Last(p)] == ShapeAt(s, p).value && g.node !in Refs(ShapeAt(s, p).value)
            && g.node in Refs(s) && Refs(g) <= Refs(s) && Alike(h[g.node], g.kids.Keys, Resolve(v, Init(p)).value)
            && Child(Resolve(v, Init(p)).value, Last(p)) == Resolve(v, p)
  {
    assert Init(p) + [Last(p)] == p;
    Descend(h, s, v, Init(p), grand, Last(p));
    TreeAt(s, Init(p));
  }

  /** Replacing the list a path leads to by a new one: its parent's entry changes in place. */
  lemma {:induction false} SpliceList(h: Store, h': Store, root: Any, s: Shape, v: Json, p: Path, r: Step, n: Node,
      others: map<Step, Shape>, gv: Json, l: Node, kids: map<Step, Shape>, w: Json)
    requires Holds(h, root, s, v) && Tree(s) && ShapeAt(s, p) == Some(Inner(n, others)) && Resolve(v, p) == Some(gv)
    requires Holds(h, Ref(n), Inner(n, others), gv) && Tree(Inner(n, others)) && r in others && n in h && n in h'
        && Refs(Inner(n, others)) <= Refs(s)
    requires Alike(h[n], others.Keys, gv) && Entry(h[n], r).Some? && Child(gv, r).Some?
        && h'[n] == SetEntry(h[n], r, Ref(l))
    requires forall m :: m in Refs(s) && m in h && m != n ==> m in h' && h'[m] == h[m]
    requires Holds(h', Ref(l), Inner(l, kids), w)
    ensures Holds(h', if p == [] then Ref(n) else root, PutShape(s, p, Inner(n, others[r := Inner(l, kids)])),
        Put(v, p, WithChild(gv, r, w)))
  {
    hide Holds, Resolve, ShapeAt, Tree, Alike, Put, PutShape, SetEntry, Entry, Child, WithChild, Refs;
    NewListHolds(h, h', n, others, gv, r, l, kids, w);
    Splice(h, h', root, s, v, p, Inner(n, others[r := Inner(l, kids)]), WithChild(gv, r, w));
  }

  lemma {:induction false} NewListHolds(h: Store, h': Store, n: Node, others: map<Step, Shape>, v: Json, r: Step,
      l: Node, kids: map<Step, Shape>, w: Json)
    requires Holds(h, Ref(n), Inner(n, others), v) && Tree(Inner(n, others)) && r in others && n in h && n in h'
    requires Alike(h[n], others.Keys, v) && Entry(h[n], r).Some? && Child(v, r).Some?
        && h'[n] == SetEntry(h[n], r, Ref(l))
    requires forall m :: m in Refs(Inner(n, others)) && m in h && m != n ==> m in h' && h'[m] == h[m]
    requires Holds(h', Ref(l), Inner(l, kids), w)
    ensures Holds(h', Ref(n), Inner(n, others[r := Inner(l, kids)]), WithChild(v, r, w))
  {
    hide Holds, Tree, Alike, SetEntry, Entry, Child, WithChild, Refs;
    KidsUntouched(h, h', n, others, v);
    SetEntryAlike(h[n], r, Ref(l), others.Keys, v);
    OneEntryHolds(h, h', n, others, v, r, Inner(l, kids), w);
  }

  /** The list at a path, and its parent, as the store has them. */
  ghost predicate ListFound(h: Store, s: Shape, v: Json, target: Path, grand: Any, parent: Any, c: Change) {
    && Tree(s) && Resolve(v, target).Some? && Editable(Resolve(v, target).value, c)
    && ShapeAt(s, target).Some? && Holds(h, parent, ShapeAt(s, target).value, Resolve(v, target).value)
    && (target != [] ==>
        ShapeAt(s, Init(target)).Some? && Resolve(v, Init(target)).Some?
        && Holds(h, grand, ShapeAt(s, Init(target)).value, Resolve(v, Init(target)).value))
  }

  /** A rebuilt list reads as the edited one, wherever it is put. */
  lemma {:induction false} RebuiltHolds(h: Store, h': Store, a: Any, s: Shape, v: Json, c: Change, up: FloatStep,
      l: Node)
    requires Holds(h, a, s, v) && Tree(s) && Editable(v, c) && !c.kind.Changed? && s.Inner? && s.node in h
        && EditableContent(h[s.node], c)
    requires l in h' && h'[l] == NewContent(h[s.node], c, up)
    requires forall m :: m in Refs(s) && m in h && m != s.node ==> m in h' && h'[m] == h[m]
    ensures Alike(h[s.node], s.kids.Keys, v)
        && Holds(h', Ref(l), Inner(l, NewKids(s.kids, h[s.node], c)), NewTarget(v, c, up))
  {
    hide Tree, Editable, NewContent, NewTarget, NewKids, EditableContent, Alike, Entry, Child, Refs, Holds;
    SelfIs(h, a, s, v);
    KidsUntouched(h, h', s.node, s.kids, v);
    EditedHolds(h, h', s.node, l, s.kids, v, c, up);
  }

  /** The rebuilt list stored back: in its parent the entry is set in place, at the root it is the root. */
  lemma {:induction false} StoredBack(h: Store, h': Store, root: Any, s: Shape, v: Json, target: Path, grand: Any,
      parent: Any, c: Change, up: FloatStep, l: Node) returns (t: Shape)
    requires Holds(h, root, s, v) && ListFound(h, s, v, target, grand, parent, c)
        && (c.kind.Appended? || c.kind.Removed?)
    requires parent.Ref? && parent.node in h && EditableContent(h[parent.node], c)
    requires l in h' && h'[l] == NewContent(h[parent.node], c, up) && target != [] && grand.Ref? && grand.node in h
        && grand.node in h'
    requires Entry(h[grand.node], Last(target)).Some? && h'[grand.node] == SetEntry(h[grand.node], Last(target), Ref(l))
    requires forall m :: m in Refs(s) && m in h && m != grand.node ==> m in h' && h'[m] == h[m]
    ensures Holds(h', root, t, Put(v, target, NewTarget(Resolve(v, target).value, c, up)))
  {
    hide Holds, Resolve, ShapeAt, Tree, Editable, NewContent, NewTarget, NewKids, EditableContent, Alike, Put,
        PutShape, Entry, Child, SetEntry, Refs;
    var sub, w := ShapeAt(s, target).value, Resolve(v, target).value;
    TargetNode(h, parent, sub, w, c);
    TreeAt(s, target);
    ParentOf(h, s, v, target, grand);
    var g, gv, u := ShapeAt(s, Init(target)).value, Resolve(v, Init(target)).value, NewTarget(w, c, up);
    RebuiltHolds(h, h', parent, sub, w, c, up, l);
    var kids := NewKids(sub.kids, h[sub.node], c);
    SpliceList(h, h', root, s, v, Init(target), Last(target), g.node, g.kids, gv, l, kids, u);
    assert Init(target) + [Last(target)] == target;
    PutStep(v, Init(target), Last(target), u);
    RootAt(h, root, s, v, Init(target), grand);
    t := PutShape(s, Init(target), Inner(g.node, g.kids[Last(target) := Inner(l, kids)]));
  }

  lemma {:induction false} BecomesRoot(h: Store, h': Store, s: Shape, v: Json, grand: Any, parent: Any, c: Change,
      up: FloatStep, l: Node)
    returns (t: Shape)
    requires ListFound(h, s, v, [], grand, parent, c) && (c.kind.Appended? || c.kind.Removed?)
    requires parent.Ref? && parent.node in h && EditableContent(h[parent.node], c) && l in h'
        && h'[l] == NewContent(h[parent.node], c, up)
    requires forall m :: m in Refs(s) && m in h ==> m in h' && h'[m] == h[m]
    ensures Holds(h', Ref(l), t, Put(v, [], NewTarget(Resolve(v, []).value, c, up)))
  {
    hide Holds, Tree, Editable, NewContent, NewTarget, NewKids, EditableContent, Alike, Put, PutShape, Entry, Child,
        Refs;
    TargetNode(h, parent, s, v, c);
    RebuiltHolds(h, h', parent, s, v, c, up, l);
    PutWhole(v, NewTarget(v, c, up));
    t := Inner(l, NewKids(s.kids, h[s.node], c));
  }

  /** What an edit of a list's length works on. */
  lemma {:induction false} ListFacts(h: Store, s: Shape, v: Json, target: Path, grand: Any, parent: Any, c: Change)
    requires ListFound(h, s, v, target, grand, parent, c)
    ensures parent.Ref? && parent.node in h && parent.node in Refs(s) && EditableContent(h[parent.node], c)
    ensures target != [] ==>
        grand.Ref? && grand.node in h && grand.node in Refs(s) && Entry(h[grand.node], Last(target)).Some?
  {
    hide Holds, Resolve, ShapeAt, Tree, Editable, EditableContent, Alike, Entry, Child, Refs;
    TargetNode(h, parent, ShapeAt(s, target).value, Resolve(v, target).value, c);
    RefIsIn(s, target);
    if target != [] { ParentOf(h, s, v, target, grand); }
  }

  /** An edit of a list's length. */
  method EditList(root: Any, ghost s: Shape, ghost v: Json, grand: Any, parent: Any, target: Path, c: Change,
      up: FloatStep)
    returns (out: Any, ghost t: Shape)
    requires Holds(Snapshot(Refs(s)), root, s, v) && (c.kind.Appended? || c.kind.Removed?)
    requires ListFound(Snapshot(Refs(s)), s, v, target, grand, parent, c)
    modifies Refs(s)
    ensures Resolve(v, target).Some? && Editable(Resolve(v, target).value, c)
    ensures Holds(Snapshot(Refs(t)), out, t, Put(v, target, NewTarget(Resolve(v, target).value, c, up)))
  {
    hide Holds, ListFound, ShapeAt, Tree, NewContent, NewTarget, EditableContent, Put, Entry, SetEntry, Refs,
        Resolve, Editable;
    Found(Snapshot(Refs(s)), s, v, target, grand, parent, c);
    ghost var h := Snapshot(Refs(s));
    ListFacts(h, s, v, target, grand, parent, c);
    var l := RebuildList(parent.node, c, up);
    out := TamperReplace(root, grand, if target == [] then Key("") else Last(target), l, |target| == 0);
    ghost var h' := Snapshot(Refs(s) + {l});
    if target == [] {
      t := BecomesRoot(h, h', s, v, grand, parent, c, up, l);
    } else {
      t := StoredBack(h, h', root, s, v, target, grand, parent, c, up, l);
    }
    HoldsAgree(h', Snapshot(Refs(t)), out, t, Put(v, target, NewTarget(Resolve(v, target).value, c, up)));
  }

  lemma {:induction false} Found(h: Store, s: Shape, v: Json, target: Path, grand: Any, parent: Any, c: Change)
    requires ListFound(h, s, v, target, grand, parent, c)
    ensures Resolve(v, target).Some? && Editable(Resolve(v, target).value, c)
  {
  }

  lemma {:induction false} PutWhole(v: Json, w: Json)
    ensures Resolve(v, []).Some? && Put(v, [], w) == w
  {
  }

  /** The value an empty path leads to is the root. */
  lemma {:induction false} RootAt(h: Store, root: Any, s: Shape, v: Json, p: Path, a: Any)
    requires Holds(h, root, s, v) && ShapeAt(s, p).Some? && ShapeAt(s, p).value.Inner?
    ensures p == [] ==> root == Ref(ShapeAt(s, p).value.node)
  {
  }

  /** The edit of a decoded record. */
  method EditInPlace(root: Any, ghost s: Shape, ghost v: Json, c: Change, up: FloatStep)
      returns (out: Any, ghost t: Shape)
    requires Tree(s) && Holds(Snapshot(Refs(s)), root, s, v) && Listable(v, c)
    modifies Refs(s)
    ensures Holds(Snapshot(Refs(t)), out, t, Edited(v, c, up))
  {
    hide Holds, Resolve, ShapeAt, Tree, Editable, NewTarget, Alike, Put, Child, Listable, Refs;
    TargetFound(v, c);
    TargetIsPath(v, c);
    var target := Target(c);
    var grand, parent := FindTarget(root, s, v, target);
    if c.kind.Appended? || c.kind.Removed? {
      out, t := EditList(root, s, v, grand, parent, target, c, up);
    } else {
      t := EditEntry(root, s, v, parent, c, up);
      out := root;
    }
  }

  // ----- Decoding and reading back -----

  ghost predicate Decoded(a: Any, s: Shape, v: Json)
    reads Refs(s)
  {
    Holds(Snapshot(Refs(s)), a, s, v) && Tree(s)
  }

  /** Parts decoded one after another, sharing nothing. */
  ghost predicate Apart(kids: map<Step, Shape>) {
    (forall r :: r in kids ==> Tree(kids[r])) && forall r, q :: r in kids && q in kids && r != q ==>
        Refs(kids[r]) !! Refs(kids[q])
  }

  ghost function AllRefs(kids: map<Step, Shape>): set<Node> { set r, o | r in kids && o in Refs(kids[r]) :: o }

  ghost predicate KidsRead(h: Store, c: Content, kids: map<Step, Shape>, v: Json) {
    forall r :: r in kids ==>
        Entry(c, r).Some? && Child(v, r).Some? && Holds(h, Entry(c, r).value, kids[r], Child(v, r).value)
  }

  lemma {:induction false} AddKid(h: Store, h': Store, c: Content, c': Content, kids: map<Step, Shape>, v: Json,
      r: Step, a: Any, x: Shape)
    requires Apart(kids) && KidsRead(h, c, kids, v) && r !in kids && Tree(x) && AllRefs(kids) !! Refs(x)
    requires forall n :: n in AllRefs(kids) && n in h ==> n in h' && h'[n] == h[n]
    requires forall q :: Entry(c', q) == if q == r then Some(a) else Entry(c, q)
    requires Child(v, r).Some? && Holds(h', a, x, Child(v, r).value)
    ensures Apart(kids[r := x]) && KidsRead(h', c', kids[r := x], v)
  {
    hide Holds, Entry, Child, Refs, Tree;
    assert forall q :: q in kids ==> Refs(kids[q]) <= AllRefs(kids);
    forall q | q in kids ensures Holds(h', Entry(c, q).value, kids[q], Child(v, q).value) {
      HoldsAgree(h, h', Entry(c, q).value, kids[q], Child(v, q).value);
    }
  }

  lemma {:induction false} WholeNode(h: Store, h': Store, n: Node, kids: map<Step, Shape>, v: Json)
    requires Apart(kids) && n in h' && KidsRead(h, h'[n], kids, v) && Alike(h'[n], kids.Keys, v) && n !in AllRefs(kids)
    requires forall m :: m in AllRefs(kids) && m in h ==> m in h' && h'[m] == h[m]
    ensures Holds(h', Ref(n), Inner(n, kids), v) && Tree(Inner(n, kids)) && Refs(Inner(n, kids)) == {n} + AllRefs(kids)
  {
    assert forall q :: q in kids ==> Refs(kids[q]) <= AllRefs(kids);
    forall q | q in kids ensures Holds(h', Entry(h'[n], q).value, kids[q], Child(v, q).value) {
      HoldsAgree(h, h', Entry(h'[n], q).value, kids[q], Child(v, q).value);
    }
    HoldsFrom(h', n, kids, v);
  }

  /** json.Decoder.Decode into any: a tree of new maps and slices. */
  method Decode(v: Json) returns (a: Any, ghost s: Shape)
    ensures Decoded(a, s, v) && fresh(Refs(s))
    decreases v, 1
  {
    match v
    case Obj(_) => a, s := DecodeMembers(v);
    case Arr(_) => a, s := DecodeItems(v);
    case _ => a, s := Scalar(v), Leaf;
  }

  lemma {:induction false} NextMember(entries: map<string, Any>, k: string, e: Any, next: map<string, Any>, v: Json)
    requires next == entries[k := e]
    ensures forall q :: Entry(Entries(next), q) == if q == Key(k) then Some(e) else Entry(Entries(entries), q)
    ensures v.Obj? && k in v.members ==> Child(v, Key(k)) == Some(v.members[k])
  {
    forall q ensures Entry(Entries(next), q) == if q == Key(k) then Some(e) else Entry(Entries(entries), q) {
      match q case Key(_) => case Index(_) =>
    }
  }

  lemma {:induction false} MembersAlike(entries: map<string, Any>, steps: set<Step>, v: Json)
    requires v.Obj? && entries.Keys == v.members.Keys && forall r :: r in steps <==> r.Key? && r.key in entries
    ensures Alike(Entries(entries), steps, v)
  {
  }

  method DecodeMembers(v: Json) returns (a: Any, ghost s: Shape)
    requires v.Obj?
    ensures Decoded(a, s, v) && fresh(Refs(s))
    decreases v, 0
  {
    hide Holds, Refs, Tree, Apart, KidsRead, Entry, Alike, AllRefs;
    var left := v.members.Keys;
    var entries: map<string, Any> := map[];
    ghost var kids: map<Step, Shape> := map[];
    NoKids(Entries(entries), v);
    while left != {}
      invariant left <= v.members.Keys && entries.Keys == v.members.Keys - left
      invariant forall r :: r in kids <==> r.Key? && r.key in entries
      invariant Apart(kids) && KidsRead(Snapshot(AllRefs(kids)), Entries(entries), kids, v) && fresh(AllRefs(kids))
    {
      var k :| k in left;
      ghost var h := Snapshot(AllRefs(kids));
      var e, x := Decode(v.members[k]);
      ghost var h' := Snapshot(AllRefs(kids) + Refs(x));
      HoldsAgree(Snapshot(Refs(x)), h', e, x, v.members[k]);
      var next := entries[k := e];
      NextMember(entries, k, e, next, v);
      AddKid(h, h', Entries(entries), Entries(next), kids, v, Key(k), e, x);
      AllRefsAdd(kids, Key(k), x);
      entries, left := next, left - {k};
      kids := kids[Key(k) := x];
    }
    ghost var h := Snapshot(AllRefs(kids));
    var n := new Node(Entries(entries));
    a, s := Ref(n), Inner(n, kids);
    MembersAlike(entries, kids.Keys, v);
    WholeNode(h, Snapshot({n} + AllRefs(kids)), n, kids, v);
  }

  lemma {:induction false} NoKids(c: Content, v: Json)
    ensures Apart(map[]) && KidsRead(map[], c, map[], v) && AllRefs(map[]) == {}
  {
  }

  lemma {:induction false} AllRefsAdd(kids: map<Step, Shape>, r: Step, x: Shape)
    requires r !in kids
    ensures AllRefs(kids[r := x]) == AllRefs(kids) + Refs(x)
  {
    hide Refs;
    forall o | o in AllRefs(kids) + Refs(x) ensures o in AllRefs(kids[r := x]) {
      if o in Refs(x) {
        assert o in Refs(kids[r := x][r]);
      } else {
        var q :| q in kids && o in Refs(kids[q]);
        assert o in Refs(kids[r := x][q]);
      }
    }
  }

  lemma {:induction false} NextItem(items: seq<Any>, e: Any, v: Json)
    ensures forall q :: Entry(Elements(items + [e]), q) == if q == Index(|items|) then Some(e)
        else Entry(Elements(items), q)
    ensures v.Arr? && |items| < |v.items| ==> Child(v, Index(|items|)) == Some(v.items[|items|])
  {
  }

  lemma {:induction false} ItemsAlike(items: seq<Any>, steps: set<Step>, v: Json)
    requires v.Arr? && |items| == |v.items| && forall r :: r in steps <==> r.Index? && r.index < |items|
    ensures Alike(Elements(items), steps, v)
  {
  }

  method DecodeItems(v: Json) returns (a: Any, ghost s: Shape)
    requires v.Arr?
    ensures Decoded(a, s, v) && fresh(Refs(s))
    decreases v, 0
  {
    hide Holds, Refs, Tree, Apart, KidsRead, Entry, Alike, AllRefs;
    var items: seq<Any> := [];
    ghost var kids: map<Step, Shape> := map[];
    NoKids(Elements(items), v);
    for i := 0 to |v.items|
      invariant |items| == i && forall r :: r in kids <==> r.Index? && r.index < i
      invariant Apart(kids) && KidsRead(Snapshot(AllRefs(kids)), Elements(items), kids, v) && fresh(AllRefs(kids))
    {
      ghost var h := Snapshot(AllRefs(kids));
      var e, x := Decode(v.items[i]);
      ghost var h' := Snapshot(AllRefs(kids) + Refs(x));
      HoldsAgree(Snapshot(Refs(x)), h', e, x, v.items[i]);
      NextItem(items, e, v);
      AddKid(h, h', Elements(items), Elements(items + [e]), kids, v, Index(i), e, x);
      AllRefsAdd(kids, Index(i), x);
      items := items + [e];
      kids := kids[Index(i) := x];
    }
    ghost var h := Snapshot(AllRefs(kids));
    var n := new Node(Elements(items));
    a, s := Ref(n), Inner(n, kids);
    ItemsAlike(items, kids.Keys, v);
    WholeNode(h, Snapshot({n} + AllRefs(kids)), n, kids, v);
  }

  /** json.Marshal, as far as the value it writes: what the references read as now. */
  method Encode(a: Any, ghost h: Store, ghost s: Shape, ghost v: Json) returns (j: Json)
    requires Holds(h, a, s, v) && forall n :: n in Refs(s) && n in h ==> h[n] == n.content
    ensures j == v
    decreases s, 1
  {
    if a.Scalar? {
      return a.value;
    }
    InnerFacts(h, a, s, v);
    if a.node.content.Entries? {
      j := EncodeEntries(a.node.content.entries, h, s, v);
    } else {
      j := EncodeElements(a.node.content.elements, h, s, v);
    }
  }

  /** What reading a map or slice back starts from. */
  ghost predicate NodeReads(c: Content, h: Store, s: Shape, v: Json)
    reads Refs(s)
  {
    && s.Inner? && (forall n :: n in Refs(s) && n in h ==> h[n] == n.content) && Alike(c, s.kids.Keys, v)
        && KidsRead(h, c, s.kids, v)
  }

  lemma {:induction false} InnerFacts(h: Store, a: Any, s: Shape, v: Json)
    requires Holds(h, a, s, v) && a.Ref? && forall n :: n in Refs(s) && n in h ==> h[n] == n.content
    ensures NodeReads(a.node.content, h, s, v)
  {
    hide Refs, Alike, Entry, Child;
    KidRefs(s);
    NodeAlike(h, s.node, s.kids, v);
  }

  method EncodeEntries(m: map<string, Any>, ghost h: Store, ghost s: Shape, ghost v: Json) returns (j: Json)
    requires NodeReads(Entries(m), h, s, v)
    ensures j == v
    decreases s, 0
  {
    hide Holds, Refs;
    KidRefs(s);
    var left := m.Keys;
    var members: map<string, Json> := map[];
    while left != {}
      invariant left <= m.Keys && members.Keys == m.Keys - left
      invariant forall k :: k in members ==> Child(v, Key(k)) == Some(members[k])
    {
      var k :| k in left;
      assert Entry(Entries(m), Key(k)) == Some(m[k]) && Key(k) in s.kids;
      var e := Encode(m[k], h, s.kids[Key(k)], Child(v, Key(k)).value);
      members, left := members[k := e], left - {k};
    }
    j := Obj(members);
    assert forall k :: k in v.members ==> Child(v, Key(k)).Some?;
  }

  method EncodeElements(l: seq<Any>, ghost h: Store, ghost s: Shape, ghost v: Json) returns (j: Json)
    requires NodeReads(Elements(l), h, s, v)
    ensures j == v
    decreases s, 0
  {
    hide Holds, Refs;
    KidRefs(s);
    var items: seq<Json> := [];
    for i := 0 to |l|
      invariant |items| == i && forall k: nat :: k < i ==> Child(v, Index(k)) == Some(items[k])
    {
      assert Entry(Elements(l), Index(i)) == Some(l[i]) && Index(i) in s.kids;
      var e := Encode(l[i], h, s.kids[Index(i)], Child(v, Index(i)).value);
      items := items + [e];
    }
    j := Arr(items);
  }

  lemma {:induction false} KidRefs(s: Shape)
    ensures s.Inner? ==> s.node in Refs(s) && forall r :: r in s.kids ==> Refs(s.kids[r]) <= Refs(s)
  {
  }

  /** tamperApply: decode a fresh copy, edit it in place, and read the result back. */
  method TamperApply(data: Json, c: Change, up: FloatStep) returns (out: Json)
    requires Listable(data, c)
    ensures out == Edited(data, c, up)
  {
    hide Holds, Refs, Tree, Listable, Edited;
    var root, s := Decode(data);
    var edited, t := EditInPlace(root, s, data, c, up);
    out := Encode(edited, Snapshot(Refs(t)), t, Edited(data, c, up));
  }
}
