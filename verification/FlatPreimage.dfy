/**
 Flat preimages (internal/artifacts/builder.go): a kind and a list of string fields written as one JSON object,
 escaping only the quote and the backslash. A `char` is a Unicode scalar value, so texts are valid UTF-8.
 */
module FlatPreimage {
  import opened Text
  import Json = CanonicalJson
  import JsonReader

  datatype Pair = Pair(key: string, value: string)

  predicate Special(c: char) { c == '"' || c == '\\' }

  function EscapeChar(c: char): string { if Special(c) then ['\\', c] else [c] }

  function Escape(s: string): string { if s == "" then "" else EscapeChar(s[0]) + Escape(s[1..]) }

  lemma {:induction false} EscapeAppend(s: string, c: char)
    ensures Escape(s + [c]) == Escape(s) + EscapeChar(c)
  {
    hide EscapeChar;
    if s == "" {
      assert s + [c] == [c] && [c][1..] == "";
    } else {
      EscapeAppend(s[1..], c);
      assert (s + [c])[1..] == s[1..] + [c];
    }
  }

  lemma {:induction false} EscapePlain(s: string)
    requires forall c :: c in s ==> !Special(c)
    ensures Escape(s) == s
  {
    if s != "" {
      assert s[0] in s;
      EscapePlain(s[1..]);
    }
  }

  /** jsonEscape: a string with nothing to escape is returned as it is. */
  method JsonEscape(s: string) returns (r: string)
    ensures r == Escape(s)
  {
    if forall c :: c in s ==> !Special(c) {
      EscapePlain(s);
      return s;
    }
    r := "";
    for i := 0 to |s|
      invariant r == Escape(s[..i])
    {
      if s[i] == '"' {
        r := r + "\\\"";
      } else if s[i] == '\\' {
        r := r + "\\\\";
      } else {
        r := r + [s[i]];
      }
      EscapeAppend(s[..i], s[i]);
      assert s[..i] + [s[i]] == s[..i + 1];
    }
    assert s[..|s|] == s;
  }

  function PairText(p: Pair): string { ",\"" + p.key + "\":\"" + Escape(p.value) + "\"" }

  function PairsText(pairs: seq<Pair>): string {
    if pairs == [] then "" else PairText(pairs[0]) + PairsText(pairs[1..])
  }

  /** The text a kind and its fields are hashed as. */
  function FlatText(kind: string, pairs: seq<Pair>): string { "{\"kind\":\"" + kind + "\"" + PairsText(pairs) + "}" }

  lemma {:induction false} PairsAppend(pairs: seq<Pair>, p: Pair)
    ensures PairsText(pairs + [p]) == PairsText(pairs) + PairText(p)
  {
    hide PairText;
    if pairs == [] {
      assert pairs + [p] == [p];
      assert PairsText([p]) == PairText(p) + PairsText([p][1..]);
    } else {
      PairsAppend(pairs[1..], p);
      assert (pairs + [p])[1..] == pairs[1..] + [p];
    }
  }

  lemma {:induction false} WrittenPair(before: string, p: Pair, sb: string)
    requires sb == before + ",\"" + p.key + "\":" + "\"" + Escape(p.value) + "\""
    ensures sb == before + PairText(p)
  {
  }

  /** canonicalHashOf */
  method CanonicalHashOf(H: Hash, kind: string, pairs: seq<Pair>) returns (hex: string)
    ensures hex == H(FlatText(kind, pairs))
  {
    hide Escape, PairText;
    var sb := "{\"kind\":\"";
    sb := sb + kind;
    sb := sb + "\"";
    ghost var head := sb;
    for i := 0 to |pairs|
      invariant sb == head + PairsText(pairs[..i])
    {
      var p := pairs[i];
      ghost var before, done := sb, PairsText(pairs[..i]);
      sb := sb + ",\"";
      sb := sb + p.key;
      sb := sb + "\":";
      sb := sb + ['"'];
      var escaped := JsonEscape(p.value);
      sb := sb + escaped;
      sb := sb + ['"'];
      WrittenPair(before, p, sb);
      PairsAppend(pairs[..i], p);
      assert pairs[..i] + [p] == pairs[..i + 1];
    }
    assert pairs[..|pairs|] == pairs;
    sb := sb + ['}'];
    hex := H(sb);
  }

  // ----- Reading back -----

  datatype Read = Read(text: string, rest: string)

  /** Scan to the first unescaped quote: what stood before it, unescaped, and what follows. */
  function ReadQuoted(s: string): Option<Read> {
    if s == "" then None
    else if s[0] == '"' then Some(Read("", s[1..]))
    else
      var n := if s[0] == '\\' then 2 else 1;
      if |s| < n then None
      else
        var r := ReadQuoted(s[n..]);
        if r.None? then None else Some(Read([s[n - 1]] + r.value.text, r.value.rest))
  }

  lemma {:induction false} ReadOne(c: char, rest: string)
    ensures ReadQuoted(EscapeChar(c) + rest) ==
            if ReadQuoted(rest).None? then None
            else Some(Read([c] + ReadQuoted(rest).value.text, ReadQuoted(rest).value.rest))
  {
    var s, n := EscapeChar(c) + rest, |EscapeChar(c)|;
    assert s[n..] == rest && s[0] == EscapeChar(c)[0] && s[n - 1] == c;
  }

  /** Scanning undoes escaping. */
  lemma {:induction false} ReadEscaped(v: string, rest: string)
    ensures ReadQuoted(Escape(v) + "\"" + rest) == Some(Read(v, rest))
  {
    hide EscapeChar;
    var s := Escape(v) + "\"" + rest;
    if v == "" {
      assert s[1..] == rest;
    } else {
      ReadEscaped(v[1..], rest);
      assert s == EscapeChar(v[0]) + (Escape(v[1..]) + "\"" + rest);
      ReadOne(v[0], Escape(v[1..]) + "\"" + rest);
      assert v == [v[0]] + v[1..];
    }
  }

  lemma {:induction false} QuotedUnique(v: string, s: string, w: string, t: string)
    requires Escape(v) + "\"" + s == Escape(w) + "\"" + t
    ensures v == w && s == t
  {
    ReadEscaped(v, s);
    ReadEscaped(w, t);
  }

  /** The same keys in the same order. */
  ghost predicate SameKeys(a: seq<Pair>, b: seq<Pair>) {
    |a| == |b| && forall i :: 0 <= i < |a| ==> a[i].key == b[i].key
  }

  /** What follows the first field's key. */
  function AfterKey(a: seq<Pair>, s: string): string
    requires a != []
  {
    "\":\"" + (Escape(a[0].value) + "\"" + (PairsText(a[1..]) + s))
  }

  lemma {:induction false} PairsHead(a: seq<Pair>, s: string)
    requires a != []
    ensures PairsText(a) + s == ",\"" + (a[0].key + AfterKey(a, s))
  {
    hide Escape;
  }

  lemma {:induction false} AfterKeyUnique(a: seq<Pair>, s: string, b: seq<Pair>, t: string)
    requires a != [] && b != [] && AfterKey(a, s) == AfterKey(b, t)
    ensures a[0].value == b[0].value && PairsText(a[1..]) + s == PairsText(b[1..]) + t
  {
    hide Escape, PairsText;
    PrefixUnique("\":\"", Escape(a[0].value) + "\"" + (PairsText(a[1..]) + s), "\":\"", Escape(b[0].value) + "\""
        + (PairsText(b[1..]) + t));
    QuotedUnique(a[0].value, PairsText(a[1..]) + s, b[0].value, PairsText(b[1..]) + t);
  }

  lemma {:induction false} PairsUnique(a: seq<Pair>, s: string, b: seq<Pair>, t: string)
    requires SameKeys(a, b) && PairsText(a) + s == PairsText(b) + t
    ensures a == b && s == t
    decreases |a|
  {
    if a == [] {
      assert PairsText(a) + s == s && PairsText(b) + t == t;
    } else {
      FirstPairUnique(a, s, b, t);
      PairsUnique(a[1..], s, b[1..], t);
      assert a == [a[0]] + a[1..] && b == [b[0]] + b[1..];
    }
  }

  lemma {:induction false} FirstPairUnique(a: seq<Pair>, s: string, b: seq<Pair>, t: string)
    requires a != [] && SameKeys(a, b) && PairsText(a) + s == PairsText(b) + t
    ensures a[0] == b[0] && PairsText(a[1..]) + s == PairsText(b[1..]) + t
  {
    hide PairsText, AfterKey;
    PairsHead(a, s);
    PairsHead(b, t);
    PrefixUnique(",\"", a[0].key + AfterKey(a, s), ",\"", b[0].key + AfterKey(b, t));
    PrefixUnique(a[0].key, AfterKey(a, s), b[0].key, AfterKey(b, t));
    AfterKeyUnique(a, s, b, t);
  }

  /** For one kind and key list, equal texts come from equal values, whatever characters they hold. */
  lemma {:induction false} FlatTextUnique(kind: string, a: seq<Pair>, b: seq<Pair>)
    requires SameKeys(a, b) && FlatText(kind, a) == FlatText(kind, b)
    ensures a == b
  {
    hide PairsText;
    var head := "{\"kind\":\"" + kind + "\"";
    assert FlatText(kind, a) == head + (PairsText(a) + "}") && FlatText(kind, b) == head + (PairsText(b) + "}");
    PrefixUnique(head, PairsText(a) + "}", head, PairsText(b) + "}");
    PairsUnique(a, "}", b, "}");
  }

  ghost predicate PlainKeys(pairs: seq<Pair>) { forall p :: p in pairs ==> forall c :: c in p.key ==> !Special(c) }

  /** A closing brace is no field. */
  lemma {:induction false} FieldOrEnd(a: seq<Pair>, b: seq<Pair>)
    requires PairsText(a) + "}" == PairsText(b) + "}"
    ensures a == [] <==> b == []
  {
    hide Escape;
    if a != [] { assert (PairsText(a) + "}")[0] == ','; }
    if b != [] { assert (PairsText(b) + "}")[0] == ','; }
  }

  lemma {:induction false} PlainKeyUnique(a: seq<Pair>, b: seq<Pair>)
    requires PlainKeys(a) && PlainKeys(b) && a != [] && b != [] && PairsText(a) + "}" == PairsText(b) + "}"
    ensures a[0].key == b[0].key && AfterKey(a, "}") == AfterKey(b, "}")
  {
    assert a[0] in a && b[0] in b;
    EscapePlain(a[0].key);
    EscapePlain(b[0].key);
    hide PairsText, Escape;
    PairsHead(a, "}");
    PairsHead(b, "}");
    PrefixUnique(",\"", a[0].key + AfterKey(a, "}"), ",\"", b[0].key + AfterKey(b, "}"));
    AfterKeyOpens(a);
    AfterKeyOpens(b);
    QuotedUnique(a[0].key, AfterKey(a, "}")[1..], b[0].key, AfterKey(b, "}")[1..]);
  }

  lemma {:induction false} AfterKeyOpens(a: seq<Pair>)
    requires a != []
    ensures AfterKey(a, "}") != "" && AfterKey(a, "}") == "\"" + AfterKey(a, "}")[1..]
    ensures a[0].key + AfterKey(a, "}") == a[0].key + "\"" + AfterKey(a, "}")[1..]
  {
  }

  lemma {:induction false} PlainPairsUnique(a: seq<Pair>, b: seq<Pair>)
    requires PlainKeys(a) && PlainKeys(b) && PairsText(a) + "}" == PairsText(b) + "}"
    ensures a == b
    decreases |a|
  {
    hide PairsText, AfterKey;
    FieldOrEnd(a, b);
    if a != [] && b != [] {
      PlainKeyUnique(a, b);
      AfterKeyUnique(a, "}", b, "}");
      PlainPairsUnique(a[1..], b[1..]);
      assert a == [a[0]] + a[1..] && b == [b[0]] + b[1..];
    }
  }

  /** With kinds and keys that need no escaping, as the source's are, the text fixes kind, keys and values together. */
  lemma {:induction false} FlatTextFixesAll(k: string, a: seq<Pair>, l: string, b: seq<Pair>)
    requires (forall c :: c in k ==> !Special(c)) && (forall c :: c in l ==> !Special(c)) && PlainKeys(a)
        && PlainKeys(b)
    requires FlatText(k, a) == FlatText(l, b)
    ensures k == l && a == b
  {
    hide PairsText, Escape;
    var x, y := PairsText(a) + "}", PairsText(b) + "}";
    assert FlatText(k, a) == "{\"kind\":\"" + (k + "\"" + x) && FlatText(l, b) == "{\"kind\":\"" + (l + "\"" + y);
    PrefixUnique("{\"kind\":\"", k + "\"" + x, "{\"kind\":\"", l + "\"" + y);
    EscapePlain(k);
    EscapePlain(l);
    QuotedUnique(k, x, l, y);
    PlainPairsUnique(a, b);
  }

  // ----- What any JSON reader makes of the text -----

  /** No character that JSON asks to be escaped and this writer does not escape. */
  ghost predicate NoControls(s: string) { forall c :: c in s ==> c as int >= 0x20 }

  lemma {:induction false} EscapeOne(c: char, rest: string)
    ensures JsonReader.ReadChars(EscapeChar(c) + rest) ==
            if c as int < 0x20 then None else JsonReader.Before(c, JsonReader.ReadChars(rest))
  {
    var x := EscapeChar(c);
    assert (x + rest)[|x|..] == rest && (x + rest)[0] == x[0];
    if |x| == 2 { assert (x + rest)[1] == c; }
  }

  /** An escaped value is a JSON string, and the one it was made of, exactly when it has no control character. */
  lemma {:induction false} ValueIsJson(v: string, rest: string)
    ensures JsonReader.ReadChars(Escape(v) + "\"" + rest) ==
            if NoControls(v) then Some(JsonReader.Got(v, rest)) else None
  {
    hide EscapeChar;
    if v == "" {
      assert Escape(v) + "\"" + rest == "\"" + rest && ("\"" + rest)[1..] == rest;
    } else {
      assert v[0] in v && forall c :: c in v <==> c == v[0] || c in v[1..];
      ValueIsJson(v[1..], rest);
      EscapeOne(v[0], Escape(v[1..]) + "\"" + rest);
      assert Escape(v) + "\"" + rest == EscapeChar(v[0]) + (Escape(v[1..]) + "\"" + rest);
      assert v == [v[0]] + v[1..];
    }
  }

  /** Keys as the source's are: nothing in them to escape. */
  ghost predicate PlainName(k: string) { NoControls(k) && forall c :: c in k ==> !Special(c) }

  /** The members a list of fields makes; a later field of the same name wins. */
  function MembersOf(pairs: seq<Pair>): map<string, Json.Json> {
    if pairs == [] then map[] else map[pairs[0].key := Json.Str(pairs[0].value)] + MembersOf(pairs[1..])
  }

  /** One field as a member, and what follows it. */
  lemma {:induction false} FieldReads(k: string, v: string, tail: string)
    requires PlainName(k) && tail != ""
    ensures JsonReader.ReadMembers("\"" + (k + ("\":\"" + (Escape(v) + "\"" + tail)))) ==
            if !NoControls(v) then None
            else if tail[0] == '}' then Some(JsonReader.Got(map[k := Json.Str(v)], tail[1..]))
            else if tail[0] != ',' || JsonReader.ReadMembers(tail[1..]).None? then None
            else Some(JsonReader.Got(map[k := Json.Str(v)] + JsonReader.ReadMembers(tail[1..]).value.value,
                JsonReader.ReadMembers(tail[1..]).value.rest))
  {
    hide JsonReader.ReadChars, Escape, NoControls;
    var value := Escape(v) + "\"" + tail;
    var s := "\"" + (k + ("\":\"" + value));
    EscapePlain(k);
    ValueIsJson(k, ":\"" + value);
    assert s[1..] == k + "\"" + (":\"" + value);
    ValueIsJson(v, tail);
    assert (":\"" + value)[1..] == "\"" + value && ("\"" + value)[1..] == value;
  }

  ghost predicate Legible(pairs: seq<Pair>) { forall p :: p in pairs ==> NoControls(p.value) }

  ghost predicate PlainNames(pairs: seq<Pair>) { forall p :: p in pairs ==> PlainName(p.key) }

  lemma {:induction false} FieldLine(pairs: seq<Pair>)
    requires pairs != []
    ensures var p, tail := pairs[0], PairsText(pairs[1..]) + "}";
            && (PairsText(pairs) + "}")[0] == ','
            && (PairsText(pairs) + "}")[1..] == "\"" + (p.key + ("\":\"" + (Escape(p.value) + "\"" + tail)))
  {
    hide Escape, PairsText;
    PairsHead(pairs, "}");
    var text := pairs[0].key + AfterKey(pairs, "}");
    assert (",\"" + text)[1..] == "\"" + text;
  }

  lemma {:induction false} LegibleHead(p: Pair, rest: seq<Pair>)
    ensures Legible([p] + rest) <==> NoControls(p.value) && Legible(rest)
    ensures PlainNames([p] + rest) <==> PlainName(p.key) && PlainNames(rest)
  {
    hide NoControls, PlainName;
    assert forall q :: q in [p] + rest <==> q == p || q in rest;
  }

  lemma {:induction false} FieldsRead(pairs: seq<Pair>)
    requires PlainNames(pairs) && pairs != []
    ensures (PairsText(pairs) + "}")[0] == ','
    ensures JsonReader.ReadMembers((PairsText(pairs) + "}")[1..]) ==
            if Legible(pairs) then Some(JsonReader.Got(MembersOf(pairs), "")) else None
  {
    hide JsonReader.ReadMembers, Escape, NoControls, PlainName, Legible, PlainNames, PairsText;
    var p, rest := pairs[0], pairs[1..];
    var tail := PairsText(rest) + "}";
    assert pairs == [p] + rest;
    LegibleHead(p, rest);
    FieldLine(pairs);
    FieldReads(p.key, p.value, tail);
    if rest == [] {
      NoFields();
      assert tail == "}" && map[p.key := Json.Str(p.value)] + map[] == map[p.key := Json.Str(p.value)];
    } else {
      FieldsRead(rest);
    }
  }

  /** The text hashed is a JSON object of these members exactly when no value holds a control character. */
  lemma {:induction false} FlatIsJson(kind: string, pairs: seq<Pair>)
    requires PlainName(kind) && PlainNames(pairs)
    ensures JsonReader.ReadValue(FlatText(kind, pairs)) ==
            if Legible(pairs) then
              Some(JsonReader.Got(Json.Obj(map["kind" := Json.Str(kind)] + MembersOf(pairs)), ""))
            else None
  {
    hide JsonReader.ReadMembers, Escape, NoControls, PlainName, PairsText, JsonReader.ReadChars;
    var tail := PairsText(pairs) + "}";
    KindIsPlain(kind);
    var text := "\"" + ("kind" + ("\":\"" + (Escape(kind) + "\"" + tail)));
    FieldReads("kind", kind, tail);
    assert FlatText(kind, pairs) == "{" + text && FlatText(kind, pairs)[1..] == text;
    if pairs == [] {
      NoFields();
      assert tail == "}" && map["kind" := Json.Str(kind)] + map[] == map["kind" := Json.Str(kind)];
    } else {
      FieldsRead(pairs);
    }
  }

  lemma {:induction false} KindIsPlain(kind: string)
    requires PlainName(kind)
    ensures PlainName("kind") && Escape(kind) == kind && NoControls(kind)
  {
    EscapePlain(kind);
  }

  lemma {:induction false} NoFields()
    ensures PairsText([]) == "" && Legible([])
  {
  }
}
