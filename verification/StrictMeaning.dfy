/** What an accepted document holds at every place in it, and that the texts of the grammar are what is walked. */
module StrictMeaning {
  import opened Text
  import opened StrictJson
  import Decimal
  import StringScan

  // ----- Every place of an accepted document -----

  /** A place: which item of a list or which member of an object, from the root down. */
  type Place = seq<nat>

  function DocAt(d: Doc, p: Place): Option<Doc>
    decreases |p|
  {
    if p == [] then Some(d)
    else
      match d
      case List(items) => if p[0] < |items| then DocAt(items[p[0]], p[1..]) else None
      case Object(ms) => if p[0] < |ms| then DocAt(ms[p[0]].value, p[1..]) else None
      case _ => None
  }

  /** The Go type a place is decoded into: behind pointers, by field name, map or slice element. */
  function TypeAt(d: Doc, t: Type, p: Place): Type
    decreases |p|, t
  {
    if t.Pointer? then TypeAt(d, t.to, p)
    else if p == [] then t
    else
      match d
      case List(items) =>
        if p[0] >= |items| then Absent
        else TypeAt(items[p[0]], if t.SliceOf? then t.elem else Absent, p[1..])
      case Object(ms) =>
        if p[0] >= |ms| then Absent
        else
          var key := ms[p[0]].key;
          TypeAt(ms[p[0]].value,
            if t.Struct? && key in t.fields then t.fields[key] else if t.MapOf? then t.elem else Absent, p[1..])
      case _ => Absent
  }

  lemma {:induction false} BehindPointers(d: Doc, t: Type, p: Place)
    ensures TypeAt(d, t, p) == TypeAt(d, Strip(t), p)
  {
    if t.Pointer? { BehindPointers(d, t.to, p); }
  }

  lemma {:induction false} PointersPass(F: Fold, N: Fractional, d: Doc, t: Type)
    ensures Strict(F, N, d, t) <==> Strict(F, N, d, Strip(t))
  {
    StripTwice(t);
  }

  lemma {:induction false} StripTwice(t: Type)
    ensures Strip(Strip(t)) == Strip(t)
  {
  }

  /** Every part of an accepted document is itself accepted, as the type it is decoded into. */
  lemma {:induction false} PartsStrict(F: Fold, N: Fractional, d: Doc, t: Type, p: Place)
    requires Strict(F, N, d, t) && DocAt(d, p).Some?
    ensures Strict(F, N, DocAt(d, p).value, TypeAt(d, t, p))
    decreases |p|
  {
    var s := Strip(t);
    BehindPointers(d, t, p);
    PointersPass(F, N, d, t);
    StripTwice(t);
    if p != [] {
      match d
      case List(items) => PartsStrict(F, N, items[p[0]], ElemType(s), p[1..]);
      case Object(ms) =>
        assert MemberStrict(F, N, ms[p[0]], s);
        PartsStrict(F, N, ms[p[0]].value, MemberType(s, ms[p[0]].key), p[1..]);
      case _ =>
    }
  }

  /** The literals of the integers that fit in 64 bits, signed or unsigned. */
  ghost predicate Fits64(literal: string) {
    exists n :: -9223372036854775808 <= n <= 18446744073709551615 && literal == Decimal.PrintInt(n)
  }

  /** What is asked of a place: integers as they print and within 64 bits, keys that stay apart, a struct's own keys. */
  ghost predicate PlaceOk(F: Fold, N: Fractional, d: Doc, t: Type) {
    match d
    case Number(literal) => if Decimal.IntegerLiteral(literal) then Fits64(literal) else N(literal)
    case Object(ms) =>
      && (forall i, j :: 0 <= i < j < |ms| ==> F(ms[i].key) != F(ms[j].key))
      && (Strip(t).Struct? ==> forall i :: 0 <= i < |ms| ==> ms[i].key in Strip(t).fields)
    case _ => true
  }

  ghost predicate EveryPlaceOk(F: Fold, N: Fractional, d: Doc, t: Type) {
    forall p :: DocAt(d, p).Some? ==> PlaceOk(F, N, DocAt(d, p).value, TypeAt(d, t, p))
  }

  lemma {:induction false} RootOk(F: Fold, N: Fractional, d: Doc, t: Type)
    requires Strict(F, N, d, t)
    ensures PlaceOk(F, N, d, t)
  {
    match d
    case Number(literal) => if Decimal.IntegerLiteral(literal) { Decimal.CanonicalIntegerExact(literal); }
    case Object(ms) =>
      forall i | 0 <= i < |ms| ensures KeyAllowed(Strip(t), ms[i].key) { assert MemberStrict(F, N, ms[i], Strip(t)); }
    case _ =>
  }

  /** A document is accepted exactly when every place in it is in order for the type decoded there. */
  lemma {:induction false} StrictIffEverywhere(F: Fold, N: Fractional, d: Doc, t: Type)
    ensures Strict(F, N, d, t) <==> EveryPlaceOk(F, N, d, t)
  {
    if Strict(F, N, d, t) {
      forall p | DocAt(d, p).Some? ensures PlaceOk(F, N, DocAt(d, p).value, TypeAt(d, t, p)) {
        PartsStrict(F, N, d, t, p);
        RootOk(F, N, DocAt(d, p).value, TypeAt(d, t, p));
      }
    }
    if EveryPlaceOk(F, N, d, t) { EverywhereIsStrict(F, N, d, t); }
  }

  lemma {:induction false} EverywhereIsStrict(F: Fold, N: Fractional, d: Doc, t: Type)
    requires EveryPlaceOk(F, N, d, t)
    ensures Strict(F, N, d, t)
    decreases d
  {
    hide PlaceOk, EveryPlaceOk;
    HereOk(F, N, d, t);
    match d
    case Number(literal) => NumberIsStrict(F, N, literal, t);
    case List(items) =>
      forall i | 0 <= i < |items| ensures Strict(F, N, items[i], ElemType(Strip(t))) {
        ItemOk(F, N, d, t, i);
        EverywhereIsStrict(F, N, items[i], ElemType(Strip(t)));
      }
    case Object(ms) =>
      KeysOk(F, N, d, t);
      forall i | 0 <= i < |ms| ensures MemberStrict(F, N, ms[i], Strip(t)) {
        ValueOk(F, N, d, t, i);
        EverywhereIsStrict(F, N, ms[i].value, MemberType(Strip(t), ms[i].key));
      }
    case _ =>
  }

  lemma {:induction false} HereOk(F: Fold, N: Fractional, d: Doc, t: Type)
    requires EveryPlaceOk(F, N, d, t)
    ensures PlaceOk(F, N, d, t)
  {
    hide PlaceOk;
    assert DocAt(d, []) == Some(d);
    BehindPointers(d, t, []);
    StripTwice(t);
    StrippedOk(F, N, d, t);
  }

  lemma {:induction false} StrippedOk(F: Fold, N: Fractional, d: Doc, t: Type)
    ensures TypeAt(d, t, []) == Strip(t) && (PlaceOk(F, N, d, Strip(t)) <==> PlaceOk(F, N, d, t))
  {
    BehindPointers(d, t, []);
    StripTwice(t);
  }

  lemma {:induction false} NumberIsStrict(F: Fold, N: Fractional, literal: string, t: Type)
    requires PlaceOk(F, N, Number(literal), t)
    ensures Strict(F, N, Number(literal), t)
  {
    if Decimal.IntegerLiteral(literal) { Decimal.CanonicalIntegerExact(literal); }
  }

  lemma {:induction false} KeysOk(F: Fold, N: Fractional, d: Doc, t: Type)
    requires d.Object? && PlaceOk(F, N, d, t)
    ensures KeysDistinct(F, d.members) && forall i :: 0 <= i < |d.members| ==> KeyAllowed(Strip(t), d.members[i].key)
  {
  }

  /** A place inside an item or a member is a place inside the whole. */
  lemma {:induction false} ItemOk(F: Fold, N: Fractional, d: Doc, t: Type, i: nat)
    requires d.List? && i < |d.items| && EveryPlaceOk(F, N, d, t)
    ensures EveryPlaceOk(F, N, d.items[i], ElemType(Strip(t)))
  {
    hide PlaceOk;
    forall p | DocAt(d.items[i], p).Some?
      ensures PlaceOk(F, N, DocAt(d.items[i], p).value, TypeAt(d.items[i], ElemType(Strip(t)), p))
    {
      var q := [i] + p;
      assert q[1..] == p && q[0] == i;
      BehindPointers(d, t, q);
      assert DocAt(d, q) == DocAt(d.items[i], p);
    }
  }

  lemma {:induction false} ValueOk(F: Fold, N: Fractional, d: Doc, t: Type, i: nat)
    requires d.Object? && i < |d.members| && EveryPlaceOk(F, N, d, t) && KeyAllowed(Strip(t), d.members[i].key)
    ensures EveryPlaceOk(F, N, d.members[i].value, MemberType(Strip(t), d.members[i].key))
  {
    hide PlaceOk;
    var m := d.members[i];
    forall p | DocAt(m.value, p).Some?
      ensures PlaceOk(F, N, DocAt(m.value, p).value, TypeAt(m.value, MemberType(Strip(t), m.key), p))
    {
      var q := [i] + p;
      assert q[1..] == p && q[0] == i;
      BehindPointers(d, t, q);
      assert DocAt(d, q) == DocAt(m.value, p);
    }
  }

  /** An integer's print is an integer literal, and is accepted exactly when it fits. */
  lemma {:induction false} IntegerStrictIff(F: Fold, N: Fractional, n: int, t: Type)
    ensures Strict(F, N, Number(Decimal.PrintInt(n)), t) <==> -9223372036854775808 <= n <= 18446744073709551615
  {
    hide Decimal.CanonicalInteger, Decimal.ReadNat;
    PrintIsLiteral(n);
    Decimal.ParsedValue(Decimal.PrintInt(n), n);
  }

  lemma {:induction false} PrintIsLiteral(n: int)
    ensures Decimal.IntegerLiteral(Decimal.PrintInt(n))
  {
    hide Decimal.PrintNat, Decimal.ReadNat;
    Decimal.PrintShape(n);
    Decimal.PrintThenRead(Decimal.Magnitude(n));
    if n == 0 { ZeroPrints(); }
    if n >= 0 { assert Decimal.PrintInt(n)[0] in Decimal.PrintInt(n); }
  }

  lemma {:induction false} ZeroPrints()
    ensures Decimal.PrintNat(0) == "0"
  {
  }

  // ----- The texts of the grammar -----

  /** A document as it is spelled: strings by what stands between their quotes. */
  datatype Syntax = AWord(word: string) | AString(items: seq<StringScan.Item>) | ANumber(literal: string)
      | AList(parts: seq<Syntax>) | AnObject(pairs: seq<Pair>)
  datatype Pair = Pair(key: seq<StringScan.Item>, value: Syntax)

  /** The document a reader makes of it. */
  function DocOf(S: Spell, mends: bool, x: Syntax): Doc
    decreases x
  {
    match x
    case AWord(w) => Word(w)
    case AString(items) => Str(Spelled(S, mends, items))
    case ANumber(n) => Number(n)
    case AList(parts) => List(seq(|parts|, i requires 0 <= i < |parts| => DocOf(S, mends, parts[i])))
    case AnObject(pairs) => Object(seq(|pairs|, i requires 0 <= i < |pairs| =>
        Member(Spelled(S, mends, pairs[i].key), DocOf(S, mends, pairs[i].value))))
  }

  /** Its text: brackets around, commas between, a colon after each key. */
  function Written(x: Syntax): seq<Lexeme>
    decreases x, 1, 0
  {
    match x
    case AWord(w) => [Bare(w)]
    case AString(items) => [Quote(items)]
    case ANumber(n) => [Bare(n)]
    case AList(parts) => [Mark('[')] + WrittenParts(x, 0)
    case AnObject(pairs) => [Mark('{')] + WrittenPairs(x, 0)
  }

  function WrittenParts(x: Syntax, k: nat): seq<Lexeme>
    requires x.AList? && k <= |x.parts|
    decreases x, 0, |x.parts| - k
  {
    if k == |x.parts| then [Mark(']')]
    else (if k == 0 then [] else [Mark(',')]) + Written(x.parts[k]) + WrittenParts(x, k + 1)
  }

  function WrittenPairs(x: Syntax, k: nat): seq<Lexeme>
    requires x.AnObject? && k <= |x.pairs|
    decreases x, 0, |x.pairs| - k
  {
    if k == |x.pairs| then [Mark('}')]
    else
      (if k == 0 then [] else [Mark(',')]) + [Quote(x.pairs[k].key), Mark(':')] + Written(x.pairs[k].value)
      + WrittenPairs(x, k + 1)
  }

  /** Words are the three JSON has, and numbers are none of them. */
  ghost predicate WellSpelled(x: Syntax)
    decreases x
  {
    match x
    case AWord(w) => w == "true" || w == "false" || w == "null"
    case AString(_) => true
    case ANumber(n) => n != "true" && n != "false" && n != "null"
    case AList(parts) => forall i :: 0 <= i < |parts| ==> WellSpelled(parts[i])
    case AnObject(pairs) => forall i :: 0 <= i < |pairs| ==> WellSpelled(pairs[i].value)
  }

  lemma {:induction false} TokensHead(S: Spell, mends: bool, x: Lexeme, rest: seq<Lexeme>)
    ensures TokensOf(S, mends, [x] + rest) == TokenOf(S, mends, x) + TokensOf(S, mends, rest)
  {
    hide TokenOf;
    assert ([x] + rest)[1..] == rest;
  }

  lemma {:induction false} TokensSplit(S: Spell, mends: bool, xs: seq<Lexeme>, ys: seq<Lexeme>)
    ensures TokensOf(S, mends, xs + ys) == TokensOf(S, mends, xs) + TokensOf(S, mends, ys)
  {
    if xs == [] {
      assert xs + ys == ys;
    } else {
      hide TokenOf, TokensOf;
      var x, rest := xs[0], xs[1..];
      assert xs == [x] + rest && xs + ys == [x] + (rest + ys);
      TokensHead(S, mends, x, rest);
      TokensHead(S, mends, x, rest + ys);
      TokensSplit(S, mends, rest, ys);
    }
  }

  lemma {:induction false} OneToken(S: Spell, mends: bool, x: Lexeme)
    ensures TokensOf(S, mends, [x]) == TokenOf(S, mends, x)
  {
    assert [x][1..] == [];
  }

  /** The tokens of a document's text are the document's tokens, as either kind of reader has them. */
  lemma {:induction false} TextTokens(S: Spell, mends: bool, x: Syntax)
    requires WellSpelled(x)
    ensures TokensOf(S, mends, Written(x)) == Tokens(DocOf(S, mends, x))
    decreases x, 1, 0
  {
    match x
    case AWord(w) => OneToken(S, mends, Bare(w));
    case AString(items) => OneToken(S, mends, Quote(items));
    case ANumber(n) => OneToken(S, mends, Bare(n));
    case AList(parts) =>
      DocParts(S, mends, x);
      PartsTokens(S, mends, x, 0);
      TokensHead(S, mends, Mark('['), WrittenParts(x, 0));
    case AnObject(pairs) =>
      DocParts(S, mends, x);
      PairsTokens(S, mends, x, 0);
      TokensHead(S, mends, Mark('{'), WrittenPairs(x, 0));
  }

  lemma {:induction false} DocParts(S: Spell, mends: bool, x: Syntax)
    ensures x.AList? ==> DocOf(S, mends, x).List? && |DocOf(S, mends, x).items| == |x.parts|
    ensures x.AList? ==> forall k :: 0 <= k < |x.parts| ==> DocOf(S, mends, x).items[k] == DocOf(S, mends, x.parts[k])
    ensures x.AnObject? ==> DocOf(S, mends, x).Object? && |DocOf(S, mends, x).members| == |x.pairs|
    ensures x.AnObject? ==> forall k :: 0 <= k < |x.pairs| ==>
        DocOf(S, mends, x).members[k] == Member(Spelled(S, mends, x.pairs[k].key), DocOf(S, mends, x.pairs[k].value))
  {
    hide Spelled;
  }

  lemma {:induction false} SplitFour(S: Spell, mends: bool, a: seq<Lexeme>, b: seq<Lexeme>, c: seq<Lexeme>,
      d: seq<Lexeme>)
    ensures TokensOf(S, mends, a + b + c + d) ==
        TokensOf(S, mends, a) + TokensOf(S, mends, b) + TokensOf(S, mends, c) + TokensOf(S, mends, d)
  {
    hide TokensOf;
    TokensSplit(S, mends, a, b);
    TokensSplit(S, mends, a + b, c);
    TokensSplit(S, mends, a + b + c, d);
  }

  lemma {:induction false} PartsTokens(S: Spell, mends: bool, x: Syntax, k: nat)
    requires WellSpelled(x) && x.AList? && k <= |x.parts| && DocOf(S, mends, x).List?
        && |DocOf(S, mends, x).items| == |x.parts|
    ensures TokensOf(S, mends, WrittenParts(x, k)) == ItemTokens(DocOf(S, mends, x), k)
    decreases x, 0, |x.parts| - k
  {
    hide TokensOf, Tokens, Written, DocOf;
    OneToken(S, mends, Mark(']'));
    if k < |x.parts| {
      var comma := if k == 0 then [] else [Mark(',')];
      DocParts(S, mends, x);
      NoTokens(S, mends, comma);
      NoTokens(S, mends, []);
      TextTokens(S, mends, x.parts[k]);
      PartsTokens(S, mends, x, k + 1);
      SplitFour(S, mends, [], comma, Written(x.parts[k]), WrittenParts(x, k + 1));
      assert [] + comma + Written(x.parts[k]) + WrittenParts(x, k + 1) == WrittenParts(x, k);
    }
  }

  lemma {:induction false} NoTokens(S: Spell, mends: bool, xs: seq<Lexeme>)
    requires xs == [] || xs == [Mark(',')] || xs == [Mark(':')]
    ensures TokensOf(S, mends, xs) == []
  {
    if xs != [] { OneToken(S, mends, xs[0]); }
  }

  lemma {:induction false} PairsTokens(S: Spell, mends: bool, x: Syntax, k: nat)
    requires WellSpelled(x) && x.AnObject? && k <= |x.pairs| && DocOf(S, mends, x).Object?
        && |DocOf(S, mends, x).members| == |x.pairs|
    ensures TokensOf(S, mends, WrittenPairs(x, k)) == MemberTokens(DocOf(S, mends, x), k)
    decreases x, 0, |x.pairs| - k
  {
    hide TokensOf, Tokens, Written, DocOf, Spelled;
    OneToken(S, mends, Mark('}'));
    if k < |x.pairs| {
      var comma, pair := if k == 0 then [] else [Mark(',')], x.pairs[k];
      DocParts(S, mends, x);
      NoTokens(S, mends, comma);
      KeyTokens(S, mends, pair.key);
      TextTokens(S, mends, pair.value);
      PairsTokens(S, mends, x, k + 1);
      SplitFour(S, mends, comma, [Quote(pair.key), Mark(':')], Written(pair.value), WrittenPairs(x, k + 1));
    }
  }

  lemma {:induction false} KeyTokens(S: Spell, mends: bool, key: seq<StringScan.Item>)
    ensures TokensOf(S, mends, [Quote(key), Mark(':')]) == [TextToken(Spelled(S, mends, key))]
  {
    hide Spelled;
    assert [Quote(key)] + [Mark(':')] == [Quote(key), Mark(':')];
    TokensSplit(S, mends, [Quote(key)], [Mark(':')]);
    OneToken(S, mends, Quote(key));
    NoTokens(S, mends, [Mark(':')]);
  }
}
