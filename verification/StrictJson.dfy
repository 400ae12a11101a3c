/**
 Strict JSON reading (internal/artifacts/strictjson.go): the token walk, and what it is for.
 Every reader of an accepted document sees the same values, whichever way it looks a field up.
 */
module StrictJson {
  import opened Text
  import Decimal
  import StringScan

  /** A parsed document. Members stand in document order and numbers are kept as written. */
  datatype Doc = Word(word: string) | Str(text: string) | Number(literal: string) | List(items: seq<Doc>)
               | Object(members: seq<Member>)
  datatype Member = Member(key: string, value: Doc)

  /**
   A Go type as the walk sees it. Foreign covers interfaces and types that decode themselves; Absent is no type at
   all.
   */
  datatype Type = Struct(fields: map<string, Type>) | MapOf(elem: Type) | SliceOf(elem: Type) | Pointer(to: Type)
                | Scalar | Foreign | Absent

  /** strings.EqualFold compares by a folded form of each string. */
  type Fold = string -> string

  /** Whether a literal with a fraction or an exponent is spelled as encoding/json spells its value. */
  type Fractional = string -> bool

  function Strip(t: Type): (r: Type)
    ensures !r.Pointer?
  {
    if t.Pointer? then Strip(t.to) else t
  }

  /** The type elements of a list are walked with. */
  function ElemType(t: Type): Type { if t.SliceOf? then t.elem else Absent }

  predicate KeyAllowed(t: Type, key: string) { t.Struct? ==> key in t.fields }

  /** The type the value under a key is walked with. */
  function MemberType(t: Type, key: string): Type
    requires KeyAllowed(t, key)
  {
    if t.Struct? then t.fields[key] else if t.MapOf? then t.elem else Absent
  }

  predicate CanonicalNumber(N: Fractional, literal: string) {
    if Decimal.IntegerLiteral(literal) then Decimal.CanonicalInteger(literal) else N(literal)
  }

  predicate KeysDistinct(F: Fold, ms: seq<Member>) {
    forall i, j :: 0 <= i < j < |ms| ==> F(ms[i].key) != F(ms[j].key)
  }

  /** The documents the walk accepts. */
  predicate Strict(F: Fold, N: Fractional, d: Doc, t: Type)
    decreases d
  {
    match d
    case Word(_) => true
    case Str(_) => true
    case Number(literal) => CanonicalNumber(N, literal)
    case List(items) => forall i :: 0 <= i < |items| ==> Strict(F, N, items[i], ElemType(Strip(t)))
    case Object(ms) =>
      && KeysDistinct(F, ms)
      && (forall i :: 0 <= i < |ms| ==> MemberStrict(F, N, ms[i], Strip(t)))
  }

  predicate MemberStrict(F: Fold, N: Fractional, m: Member, t: Type)
    decreases m
  {
    KeyAllowed(t, m.key) && Strict(F, N, m.value, MemberType(t, m.key))
  }

  // ----- The token stream -----

  datatype Token = OpenList | CloseList | OpenObject | CloseObject | WordToken(word: string)
      | TextToken(text: string) | NumberToken(literal: string)

  function Tokens(d: Doc): (ts: seq<Token>)
    ensures ts != [] && ts[0] != CloseList && ts[0] != CloseObject
    decreases d, 1, 0
  {
    match d
    case Word(w) => [WordToken(w)]
    case Str(s) => [TextToken(s)]
    case Number(n) => [NumberToken(n)]
    case List(items) => [OpenList] + ItemTokens(d, 0)
    case Object(ms) => [OpenObject] + MemberTokens(d, 0)
  }

  /** The items of a list from one on, and its closing token. */
  function ItemTokens(d: Doc, k: nat): seq<Token>
    requires d.List? && k <= |d.items|
    decreases d, 0, |d.items| - k
  {
    if k == |d.items| then [CloseList] else Tokens(d.items[k]) + ItemTokens(d, k + 1)
  }

  function MemberTokens(d: Doc, k: nat): seq<Token>
    requires d.Object? && k <= |d.members|
    decreases d, 0, |d.members| - k
  {
    if k == |d.members| then [CloseObject]
    else [TextToken(d.members[k].key)] + Tokens(d.members[k].value) + MemberTokens(d, k + 1)
  }

  /** json.Decoder: the tokens not yet read. */
  class Decoder {
    var rest: seq<Token>

    constructor (tokens: seq<Token>)
      ensures rest == tokens
    {
      rest := tokens;
    }

    /** Whether the list or object being read has another element. */
    predicate More()
      reads this
    {
      rest != [] && rest[0] != CloseList && rest[0] != CloseObject
    }

    method Next() returns (token: Token)
      requires rest != []
      modifies this
      ensures token == old(rest[0]) && rest == old(rest[1..])
    {
      token := rest[0];
      rest := rest[1..];
    }
  }

  /** What the decoder meets first: the document's first token, then the rest of it. */
  lemma {:induction false} DocNext(d: Doc, tail: seq<Token>)
    ensures (Tokens(d) + tail)[0] == Tokens(d)[0]
    ensures match d
            case List(_) => (Tokens(d) + tail)[1..] == ItemTokens(d, 0) + tail
            case Object(_) => (Tokens(d) + tail)[1..] == MemberTokens(d, 0) + tail
            case _ => (Tokens(d) + tail)[1..] == tail
  {
  }

  lemma {:induction false} ItemNext(d: Doc, k: nat, tail: seq<Token>)
    requires d.List? && k <= |d.items|
    ensures var ts := ItemTokens(d, k) + tail;
            if k < |d.items| then ts == Tokens(d.items[k]) + (ItemTokens(d, k + 1) + tail)
                && ts[0] == Tokens(d.items[k])[0]
            else ts[0] == CloseList && ts[1..] == tail
  {
  }

  lemma {:induction false} MemberNext(d: Doc, k: nat, tail: seq<Token>)
    requires d.Object? && k <= |d.members|
    ensures var ts := MemberTokens(d, k) + tail;
            ts != [] && if k < |d.members| then ts[0] == TextToken(d.members[k].key)
                && ts[1..] == Tokens(d.members[k].value) + (MemberTokens(d, k + 1) + tail)
            else ts[0] == CloseObject && ts[1..] == tail
  {
  }

  // ----- The walk -----

  /**
   walkStrict on the tokens of a document. It accepts exactly the strict documents, and then leaves the
   decoder just past the document.
   */
  method WalkStrict(F: Fold, N: Fractional, dec: Decoder, declared: Type, ghost d: Doc, ghost tail: seq<Token>)
      returns (ok: bool)
    requires dec.rest == Tokens(d) + tail
    modifies dec
    ensures ok <==> Strict(F, N, d, declared)
    ensures ok ==> dec.rest == tail
    decreases d, 2
  {
    var t := declared;
    while t.Pointer?
      invariant Strip(t) == Strip(declared)
      decreases t
    {
      t := t.to;
    }
    DocNext(d, tail);
    var token := dec.Next();
    match token
    case NumberToken(literal) => ok := CanonicalNumber(N, literal);
    case OpenList => ok := WalkItems(F, N, dec, t, d, tail);
    case OpenObject => ok := WalkMembers(F, N, dec, t, d, tail);
    case _ => ok := true;
  }

  method WalkItems(F: Fold, N: Fractional, dec: Decoder, t: Type, ghost d: Doc, ghost tail: seq<Token>)
      returns (ok: bool)
    requires d.List? && dec.rest == ItemTokens(d, 0) + tail
    modifies dec
    ensures ok <==> forall i :: 0 <= i < |d.items| ==> Strict(F, N, d.items[i], ElemType(t))
    ensures ok ==> dec.rest == tail
    decreases d, 1
  {
    var elem := if t.SliceOf? then t.elem else Absent;
    ghost var k := 0;
    while dec.More()
      invariant k <= |d.items| && dec.rest == ItemTokens(d, k) + tail
      invariant forall i :: 0 <= i < k ==> Strict(F, N, d.items[i], ElemType(t))
      decreases |d.items| - k
    {
      ItemNext(d, k, tail);
      var good := WalkStrict(F, N, dec, elem, d.items[k], ItemTokens(d, k + 1) + tail);
      if !good {
        return false;
      }
      k := k + 1;
    }
    ItemNext(d, k, tail);
    var close := dec.Next();
    return true;
  }

  /** The loop over the keys seen so far. */
  method FoldsToPrior(F: Fold, seen: seq<string>, key: string) returns (clash: bool)
    ensures clash <==> exists i :: 0 <= i < |seen| && F(seen[i]) == F(key)
  {
    var i := 0;
    while i < |seen|
      invariant i <= |seen| && forall j :: 0 <= j < i ==> F(seen[j]) != F(key)
    {
      if F(seen[i]) == F(key) {
        return true;
      }
      i := i + 1;
    }
    return false;
  }

  /** The first members of an object pass the walk. */
  predicate PrefixStrict(F: Fold, N: Fractional, ms: seq<Member>, t: Type, k: nat)
    requires k <= |ms|
  {
    && (forall i, j :: 0 <= i < j < k ==> F(ms[i].key) != F(ms[j].key))
    && (forall i :: 0 <= i < k ==> MemberStrict(F, N, ms[i], t))
  }

  predicate Clashes(F: Fold, ms: seq<Member>, k: nat)
    requires k < |ms|
  {
    exists i :: 0 <= i < k && F(ms[i].key) == F(ms[k].key)
  }

  lemma {:induction false} PrefixStep(F: Fold, N: Fractional, ms: seq<Member>, t: Type, k: nat)
    requires k < |ms| && PrefixStrict(F, N, ms, t, k)
    ensures PrefixStrict(F, N, ms, t, k + 1) <==> !Clashes(F, ms, k) && MemberStrict(F, N, ms[k], t)
    ensures PrefixStrict(F, N, ms, t, |ms|) ==> PrefixStrict(F, N, ms, t, k + 1)
  {
  }

  lemma {:induction false} NoneYet(F: Fold, N: Fractional, ms: seq<Member>, t: Type)
    ensures PrefixStrict(F, N, ms, t, 0)
  {
  }

  method WalkMembers(F: Fold, N: Fractional, dec: Decoder, t: Type, ghost d: Doc, ghost tail: seq<Token>)
      returns (ok: bool)
    requires d.Object? && dec.rest == MemberTokens(d, 0) + tail
    modifies dec
    ensures ok <==> PrefixStrict(F, N, d.members, t, |d.members|)
    ensures ok ==> dec.rest == tail
    decreases d, 1
  {
    hide PrefixStrict, Strict, Tokens, MemberTokens;
    NoneYet(F, N, d.members, t);
    var seen: seq<string> := [];
    while dec.More()
      invariant |seen| <= |d.members| && dec.rest == MemberTokens(d, |seen|) + tail
      invariant forall i :: 0 <= i < |seen| ==> seen[i] == d.members[i].key
      invariant PrefixStrict(F, N, d.members, t, |seen|)
      decreases |d.members| - |seen|
    {
      ghost var k := |seen|;
      MemberNext(d, k, tail);
      PrefixStep(F, N, d.members, t, k);
      var keyToken := dec.Next();
      var key := keyToken.text;
      var clash := FoldsToPrior(F, seen, key);
      if clash {
        return false;
      }
      seen := seen + [key];
      var next := Absent;
      if t.Struct? {
        if key !in t.fields {
          return false;
        }
        next := t.fields[key];
      } else if t.MapOf? {
        next := t.elem;
      }
      var good := WalkStrict(F, N, dec, next, d.members[k].value, MemberTokens(d, k + 1) + tail);
      if !good {
        return false;
      }
    }
    MemberNext(d, |seen|, tail);
    var close := dec.Next();
    return true;
  }

  // ----- The text and its tokens -----

  /** A bracket, comma, colon or blank; a string; or a word or number. */
  datatype Lexeme = Mark(c: char) | Quote(items: seq<StringScan.Item>) | Bare(text: string)

  /** How a reader writes down the code units of a string. */
  type Spell = seq<int> -> string

  function Outsides(text: string): seq<StringScan.Piece> {
    if text == "" then [] else [StringScan.Outside(text[0])] + Outsides(text[1..])
  }

  function PiecesOf(xs: seq<Lexeme>): seq<StringScan.Piece> {
    if xs == [] then []
    else
      (match xs[0]
       case Mark(c) => [StringScan.Outside(c)]
       case Quote(items) => [StringScan.Quoted(items)]
       case Bare(text) => Outsides(text))
      + PiecesOf(xs[1..])
  }

  /** The bytes of a document. */
  function TextOf(xs: seq<Lexeme>): string { StringScan.JsonText(PiecesOf(xs)) }

  /** No quote outside a string, and strings as the grammar has them. */
  ghost predicate LexemesOk(xs: seq<Lexeme>) { StringScan.PiecesOk(PiecesOf(xs)) }

  /** A string as a reader has it: unpaired surrogates replaced, as encoding/json does, or kept. */
  function Spelled(S: Spell, mends: bool, items: seq<StringScan.Item>): string {
    var units := StringScan.UnitsOf(items);
    S(if mends then StringScan.Replaced(units) else units)
  }

  /** The tokens of a text; commas, colons and blanks make none. */
  function TokenOf(S: Spell, mends: bool, x: Lexeme): seq<Token> {
    match x
    case Mark(c) =>
      if c == '[' then [OpenList] else if c == ']' then [CloseList]
      else if c == '{' then [OpenObject] else if c == '}' then [CloseObject] else []
    case Quote(items) => [TextToken(Spelled(S, mends, items))]
    case Bare(text) => if text in {"true", "false", "null"} then [WordToken(text)] else [NumberToken(text)]
  }

  function TokensOf(S: Spell, mends: bool, xs: seq<Lexeme>): seq<Token> {
    if xs == [] then [] else TokenOf(S, mends, xs[0]) + TokensOf(S, mends, xs[1..])
  }

  /**
   CheckStrict on a text and the document its tokens begin with: the text check on the bytes, the walk over the
   tokens, then nothing left.
   */
  method CheckStrict(F: Fold, N: Fractional, S: Spell, data: string, validUtf8: bool, tokens: seq<Token>, t: Type,
      ghost xs: seq<Lexeme>, ghost d: Doc, ghost tail: seq<Token>)
    returns (ok: bool)
    requires LexemesOk(xs) && data == TextOf(xs) && tokens == TokensOf(S, true, xs) == Tokens(d) + tail
    ensures ok <==> validUtf8 && StringScan.Scan(data, 0, false) && Strict(F, N, d, t) && tail == []
    ensures ok <==> validUtf8 && StringsAlike(PiecesOf(xs)) && Strict(F, N, d, t) && tail == []
  {
    StringScan.AcceptedIffReadAlike(PiecesOf(xs));
    hide StringsAlike, StringScan.Scan, StringScan.JsonText, StringScan.PiecesOk;
    var textOk := StringScan.CheckStringText(data, validUtf8);
    if !textOk {
      return false;
    }
    var dec := new Decoder(tokens);
    var good := WalkStrict(F, N, dec, t, d, tail);
    return good && dec.rest == [];
  }

  /** Every string of a text is the same to a reader that replaces unpaired surrogates and to one that keeps them. */
  ghost predicate StringsAlike(ps: seq<StringScan.Piece>) {
    forall p :: p in ps && p.Quoted? ==> StringScan.ReadAlike(StringScan.UnitsOf(p.items))
  }

  /** Strings that read alike make the same tokens for both kinds of reader. */
  lemma {:induction false} TokensAlike(S: Spell, xs: seq<Lexeme>)
    requires StringsAlike(PiecesOf(xs))
    ensures TokensOf(S, true, xs) == TokensOf(S, false, xs)
  {
    hide StringScan.UnitsOf, StringScan.Replaced, Outsides;
    if xs != [] {
      var head := PiecesOf(xs)[..|PiecesOf(xs)| - |PiecesOf(xs[1..])|];
      assert PiecesOf(xs) == head + PiecesOf(xs[1..]);
      TokensAlike(S, xs[1..]);
      if xs[0].Quote? {
        assert PiecesOf(xs)[0] in PiecesOf(xs);
      }
    }
  }

  /** Tokens are read back into a document in one way, and end where it ends. */
  lemma {:induction false} TokensUnique(d: Doc, s: seq<Token>, e: Doc, t: seq<Token>)
    requires Tokens(d) + s == Tokens(e) + t
    ensures d == e && s == t
    decreases d, 1, 0
  {
    hide Tokens, ItemTokens, MemberTokens;
    DocNext(d, s);
    DocNext(e, t);
    FirstToken(d);
    FirstToken(e);
    if d.List? {
      ItemsUnique(d, s, e, t, 0);
    } else if d.Object? {
      MembersUnique(d, s, e, t, 0);
    }
  }

  lemma {:induction false} FirstToken(d: Doc)
    ensures Tokens(d)[0] == match d
                            case Word(w) => WordToken(w)
                            case Str(x) => TextToken(x)
                            case Number(n) => NumberToken(n)
                            case List(_) => OpenList
                            case Object(_) => OpenObject
  {
  }

  lemma {:induction false} ItemsUnique(d: Doc, s: seq<Token>, e: Doc, t: seq<Token>, k: nat)
    requires d.List? && e.List? && k <= |d.items| && k <= |e.items| && d.items[..k] == e.items[..k]
    requires ItemTokens(d, k) + s == ItemTokens(e, k) + t
    ensures d == e && s == t
    decreases d, 0, |d.items| - k
  {
    hide Tokens, ItemTokens;
    ItemNext(d, k, s);
    ItemNext(e, k, t);
    if k < |d.items| && k < |e.items| {
      TokensUnique(d.items[k], ItemTokens(d, k + 1) + s, e.items[k], ItemTokens(e, k + 1) + t);
      assert d.items[..k + 1] == d.items[..k] + [d.items[k]] && e.items[..k + 1] == e.items[..k] + [e.items[k]];
      ItemsUnique(d, s, e, t, k + 1);
    } else if k == |d.items| && k == |e.items| {
      assert d.items[..k] == d.items && e.items[..k] == e.items;
    }
  }

  lemma {:induction false} MembersUnique(d: Doc, s: seq<Token>, e: Doc, t: seq<Token>, k: nat)
    requires d.Object? && e.Object? && k <= |d.members| && k <= |e.members| && d.members[..k] == e.members[..k]
    requires MemberTokens(d, k) + s == MemberTokens(e, k) + t
    ensures d == e && s == t
    decreases d, 0, |d.members| - k
  {
    hide Tokens, MemberTokens;
    MemberNext(d, k, s);
    MemberNext(e, k, t);
    if k < |d.members| && k < |e.members| {
      TokensUnique(d.members[k].value, MemberTokens(d, k + 1) + s, e.members[k].value, MemberTokens(e, k + 1) + t);
      assert d.members[..k + 1] == d.members[..k] + [d.members[k]];
      assert e.members[..k + 1] == e.members[..k] + [e.members[k]];
      MembersUnique(d, s, e, t, k + 1);
    } else if k == |d.members| && k == |e.members| {
      assert d.members[..k] == d.members && e.members[..k] == e.members;
    }
  }

  // ----- Readers -----

  /**
   Case folding with the last match winning, as encoding/json reads; exact keys, first or last winning, as others
   do.
   */
  datatype Reader = FoldLast | ExactFirst | ExactLast

  /** Whether a reader takes a member's key for a field. */
  predicate Takes(F: Fold, r: Reader, key: string, field: string) {
    if r.FoldLast? then F(key) == F(field) else key == field
  }

  /** The position a reader takes a field from, among the members from one on. */
  function Select(F: Fold, r: Reader, ms: seq<Member>, field: string, from: nat): (p: Option<nat>)
    requires from <= |ms|
    ensures p.Some? ==> from <= p.value < |ms| && Takes(F, r, ms[p.value].key, field)
    ensures p.None? ==> forall i :: from <= i < |ms| ==> !Takes(F, r, ms[i].key, field)
    decreases |ms| - from
  {
    if from == |ms| then None
    else if r.ExactFirst? && Takes(F, r, ms[from].key, field) then Some(from)
    else
      var later := Select(F, r, ms, field, from + 1);
      if later.Some? then later
      else if Takes(F, r, ms[from].key, field) then Some(from) else None
  }

  /** First or last among the positions a reader takes. */
  lemma {:induction false} SelectExtreme(F: Fold, r: Reader, ms: seq<Member>, field: string, from: nat, i: nat)
    requires from <= i < |ms| && Takes(F, r, ms[i].key, field)
    ensures Select(F, r, ms, field, from).Some?
    ensures r.ExactFirst? ==> Select(F, r, ms, field, from).value <= i
    ensures !r.ExactFirst? ==> i <= Select(F, r, ms, field, from).value
    decreases |ms| - from
  {
    if from < i { SelectExtreme(F, r, ms, field, from + 1, i); }
  }

  /** A struct's own field names stay apart under folding. */
  predicate NamesDistinct(F: Fold, fields: map<string, Type>) {
    forall f, g :: f in fields && g in fields && F(f) == F(g) ==> f == g
  }

  predicate Known(fields: map<string, Type>, ms: seq<Member>) {
    forall i :: 0 <= i < |ms| ==> ms[i].key in fields
  }

  /** All readers take the same member, or none, for a field. */
  predicate SameSelection(F: Fold, ms: seq<Member>, field: string) {
    Select(F, FoldLast, ms, field, 0) == Select(F, ExactFirst, ms, field, 0) == Select(F, ExactLast, ms, field, 0)
  }

  /** In a struct object the walk accepts, every member is the one every reader takes for the field it names. */
  lemma {:induction false} EveryMemberIsRead(F: Fold, fields: map<string, Type>, ms: seq<Member>, r: Reader, i: nat)
    requires NamesDistinct(F, fields) && Known(fields, ms) && KeysDistinct(F, ms) && i < |ms|
    ensures Select(F, r, ms, ms[i].key, 0) == Some(i)
  {
    SelectExtreme(F, r, ms, ms[i].key, 0, i);
    var p := Select(F, r, ms, ms[i].key, 0).value;
    assert F(ms[p].key) == F(ms[i].key);
  }

  /** The walk's test on keys is exact: readers agree on every field just when the keys stay apart under folding. */
  lemma {:induction false} KeysDistinctIffReadersAgree(F: Fold, fields: map<string, Type>, ms: seq<Member>)
    requires NamesDistinct(F, fields) && Known(fields, ms)
    ensures KeysDistinct(F, ms) <==> forall f :: f in fields ==> SameSelection(F, ms, f)
  {
    if KeysDistinct(F, ms) {
      forall f | f in fields ensures SameSelection(F, ms, f) { SelectionAgrees(F, fields, ms, f); }
    } else {
      var i: nat, j: nat :| i < j < |ms| && F(ms[i].key) == F(ms[j].key);
      var f := ms[i].key;
      SelectExtreme(F, ExactFirst, ms, f, 0, i);
      SelectExtreme(F, FoldLast, ms, f, 0, j);
      assert f in fields && !SameSelection(F, ms, f);
    }
  }

  lemma {:induction false} SelectionAgrees(F: Fold, fields: map<string, Type>, ms: seq<Member>, f: string)
    requires NamesDistinct(F, fields) && Known(fields, ms) && KeysDistinct(F, ms) && f in fields
    ensures SameSelection(F, ms, f)
  {
    var p := Select(F, FoldLast, ms, f, 0);
    if p.Some? {
      assert ms[p.value].key == f;
      EveryMemberIsRead(F, fields, ms, ExactFirst, p.value);
      EveryMemberIsRead(F, fields, ms, ExactLast, p.value);
    } else {
      assert forall i :: 0 <= i < |ms| ==> ms[i].key != f by {
        forall i | 0 <= i < |ms| ensures ms[i].key != f { assert !Takes(F, FoldLast, ms[i].key, f); }
      }
    }
  }

  // ----- What a reader sees of a whole document -----

  datatype View = Leaf(value: Doc) | Elements(views: seq<View>) | Record(entries: map<string, View>)

  /** Free-form keys are looked up exactly; encoding/json keeps the last. */
  function KeyReader(r: Reader): Reader { if r.ExactFirst? then ExactFirst else ExactLast }

  function Keys(ms: seq<Member>): set<string> { set i | 0 <= i < |ms| :: ms[i].key }

  function Read(F: Fold, r: Reader, d: Doc, t: Type): View
    decreases d, 1
  {
    match d
    case List(items) => Elements(seq(|items|, i requires 0 <= i < |items| => Read(F, r, items[i], ElemType(Strip(t)))))
    case Object(_) =>
      if Strip(t).Struct? then FieldsView(F, r, d, Strip(t).fields) else KeysView(F, r, KeyReader(r), d, Strip(t))
    case _ => Leaf(d)
  }

  function FieldsView(F: Fold, r: Reader, d: Doc, fields: map<string, Type>): View
    requires d.Object?
    decreases d, 0
  {
    Record(map f | f in fields && Select(F, r, d.members, f, 0).Some? ::
             Read(F, r, d.members[Select(F, r, d.members, f, 0).value].value, fields[f]))
  }

  function KeysView(F: Fold, r: Reader, lookup: Reader, d: Doc, t: Type): View
    requires d.Object? && !t.Struct?
    decreases d, 0
  {
    Record(map k | k in Keys(d.members) && Select(F, lookup, d.members, k, 0).Some? ::
             Read(F, r, d.members[Select(F, lookup, d.members, k, 0).value].value, MemberType(t, k)))
  }

  /** Every struct reachable in a type keeps its names apart under folding. */
  predicate NamesDistinctIn(F: Fold, t: Type) {
    match t
    case Struct(fields) => NamesDistinct(F, fields) && forall f :: f in fields ==> NamesDistinctIn(F, fields[f])
    case MapOf(elem) => NamesDistinctIn(F, elem)
    case SliceOf(elem) => NamesDistinctIn(F, elem)
    case Pointer(to) => NamesDistinctIn(F, to)
    case _ => true
  }

  lemma {:induction false} StripKeepsNames(F: Fold, t: Type)
    requires NamesDistinctIn(F, t)
    ensures NamesDistinctIn(F, Strip(t))
  {
    if t.Pointer? { StripKeepsNames(F, t.to); }
  }

  /** With distinct keys, looking a free-form key up exactly has one answer. */
  lemma {:induction false} KeySelectionAgrees(F: Fold, ms: seq<Member>, k: string, r: Reader)
    requires KeysDistinct(F, ms)
    ensures Select(F, KeyReader(r), ms, k, 0) == Select(F, ExactLast, ms, k, 0)
  {
    var p, q := Select(F, ExactFirst, ms, k, 0), Select(F, ExactLast, ms, k, 0);
    if p.Some? { assert Takes(F, ExactLast, ms[p.value].key, k); }
    if q.Some? { assert Takes(F, ExactFirst, ms[q.value].key, k); }
    if p.Some? && q.Some? {
      assert F(ms[p.value].key) == F(ms[q.value].key);
    }
  }

  /** Reader agreement: every reader sees the same values everywhere in a document the walk accepts. */
  lemma {:induction false} ReadersAgree(F: Fold, N: Fractional, d: Doc, t: Type, r: Reader)
    requires Strict(F, N, d, t) && NamesDistinctIn(F, t)
    ensures Read(F, r, d, t) == Read(F, ExactLast, d, t)
    decreases d
  {
    var s := Strip(t);
    StripKeepsNames(F, t);
    match d
    case List(items) =>
      forall i | 0 <= i < |items|
          ensures Read(F, r, items[i], ElemType(s)) == Read(F, ExactLast, items[i], ElemType(s)) {
        ReadersAgree(F, N, items[i], ElemType(s), r);
      }
    case Object(ms) =>
      forall i | 0 <= i < |ms| ensures KeyAllowed(s, ms[i].key) && ValueAgrees(F, r, ms[i], MemberType(s, ms[i].key)) {
        assert MemberStrict(F, N, ms[i], s);
        ReadersAgree(F, N, ms[i].value, MemberType(s, ms[i].key), r);
      }
      if s.Struct? {
        FieldsAgree(F, d, s.fields, r);
      } else {
        KeysAgree(F, d, s, r);
      }
    case _ =>
  }

  ghost predicate ValueAgrees(F: Fold, r: Reader, m: Member, t: Type) {
    Read(F, r, m.value, t) == Read(F, ExactLast, m.value, t)
  }

  lemma {:induction false} FieldsAgree(F: Fold, d: Doc, fields: map<string, Type>, r: Reader)
    requires d.Object? && NamesDistinct(F, fields) && Known(fields, d.members) && KeysDistinct(F, d.members)
    requires forall i :: 0 <= i < |d.members| ==> ValueAgrees(F, r, d.members[i], fields[d.members[i].key])
    ensures FieldsView(F, r, d, fields) == FieldsView(F, ExactLast, d, fields)
  {
    hide Read, Select, KeysDistinct, NamesDistinct;
    StructAgrees(F, fields, d.members, r);
    forall f | f in fields && Select(F, r, d.members, f, 0).Some?
      ensures ValueAgrees(F, r, d.members[Select(F, r, d.members, f, 0).value], fields[f]) {}
  }

  lemma {:induction false} KeysAgree(F: Fold, d: Doc, t: Type, r: Reader)
    requires d.Object? && !t.Struct? && KeysDistinct(F, d.members)
    requires forall i :: 0 <= i < |d.members| ==> ValueAgrees(F, r, d.members[i], MemberType(t, d.members[i].key))
    ensures KeysView(F, r, KeyReader(r), d, t) == KeysView(F, ExactLast, ExactLast, d, t)
  {
    hide Read, Select, KeysDistinct, Keys, KeyReader;
    forall k | k in Keys(d.members)
        ensures Select(F, KeyReader(r), d.members, k, 0) == Select(F, ExactLast, d.members, k, 0) {
      KeySelectionAgrees(F, d.members, k, r);
    }
    assert KeysView(F, r, KeyReader(r), d, t) == KeysView(F, r, ExactLast, d, t);
    KeyValuesAgree(F, d, t, r);
  }

  lemma {:induction false} KeyValuesAgree(F: Fold, d: Doc, t: Type, r: Reader)
    requires d.Object? && !t.Struct?
    requires forall i :: 0 <= i < |d.members| ==> ValueAgrees(F, r, d.members[i], MemberType(t, d.members[i].key))
    ensures KeysView(F, r, ExactLast, d, t) == KeysView(F, ExactLast, ExactLast, d, t)
  {
    hide Read, Select, Keys;
    forall k | k in Keys(d.members) && Select(F, ExactLast, d.members, k, 0).Some?
      ensures ValueAgrees(F, r, d.members[Select(F, ExactLast, d.members, k, 0).value], MemberType(t, k)) {}
  }

  lemma {:induction false} StructAgrees(F: Fold, fields: map<string, Type>, ms: seq<Member>, r: Reader)
    requires NamesDistinct(F, fields) && Known(fields, ms) && KeysDistinct(F, ms)
    ensures forall f :: f in fields ==> Select(F, r, ms, f, 0) == Select(F, ExactLast, ms, f, 0)
    ensures forall f :: f in fields && Select(F, r, ms, f, 0).Some? ==> ms[Select(F, r, ms, f, 0).value].key == f
  {
    forall f | f in fields ensures Select(F, r, ms, f, 0) == Select(F, ExactLast, ms, f, 0) {
      SelectionAgrees(F, fields, ms, f);
    }
    forall f | f in fields && Select(F, r, ms, f, 0).Some? ensures ms[Select(F, r, ms, f, 0).value].key == f {
      assert F(ms[Select(F, r, ms, f, 0).value].key) == F(f);
    }
  }

  /**
   What acceptance is for: of one accepted text every reader has the same document and sees the same values in it,
   whether it replaces unpaired surrogates or keeps them, and whichever member it takes for a field.
   */
  lemma {:induction false} OneTextOneView(F: Fold, N: Fractional, S: Spell, xs: seq<Lexeme>, t: Type, d: Doc, e: Doc,
      r: Reader, q: Reader)
    requires LexemesOk(xs) && StringScan.Scan(TextOf(xs), 0, false)
    requires Tokens(d) == TokensOf(S, true, xs) && Tokens(e) == TokensOf(S, false, xs)
    requires Strict(F, N, d, t) && NamesDistinctIn(F, t)
    ensures d == e && Read(F, r, d, t) == Read(F, q, e, t)
  {
    StringScan.AcceptedIffReadAlike(PiecesOf(xs));
    TokensAlike(S, xs);
    assert Tokens(d) + [] == Tokens(e) + [];
    TokensUnique(d, [], e, []);
    ReadersAgree(F, N, d, t, r);
    ReadersAgree(F, N, d, t, q);
  }
}
