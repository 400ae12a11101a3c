/**
 JSON trees and the canonical writer that hashes are taken over: object keys in byte
 order, no white space, strings as encoding/json escapes them (internal/policyhash/policyhash.go).
 A `char` here is a Unicode scalar value; ordering by it is ordering UTF-8 by bytes.
 */
module CanonicalJson {
  import opened Text
  import opened Decimal
  import opened Hex

  datatype Json =
    | Null
    | Bool(value: bool)
    | Num(number: int)
    | Str(text: string)
    | Arr(items: seq<Json>)
    | Obj(members: map<string, Json>)

  // ----- Strings -----

  function EscapeHex(n: nat): string
    requires n < 256
  {
    "\\u00" + [HexDigit(n / 16), HexDigit(n % 16)]
  }

  /** One character as encoding/json writes it inside a string. */
  function EscapeChar(c: char): string {
    if c == '"' then "\\\"" else if c == '\\' then "\\\\"
    else if c == '\n' then "\\n" else if c == '\r' then "\\r" else if c == '\t' then "\\t"
    else if c as int == 8 then "\\b" else if c as int == 12 then "\\f"
    else if c as int < 32 || c == '<' || c == '>' || c == '&' then EscapeHex(c as int)
    else if c as int == 0x2028 then "\\u2028" else if c as int == 0x2029 then "\\u2029"
    else [c]
  }

  function EscapeText(s: string): string {
    if s == "" then "" else EscapeChar(s[0]) + EscapeText(s[1..])
  }

  function Quote(s: string): string { "\"" + EscapeText(s) + "\"" }

  /** How many characters an escaped character takes, and which it is, read off its own text. */
  function EscapedLength(s: string): nat
    requires s != ""
  {
    if s[0] != '\\' then 1 else if |s| > 1 && s[1] == 'u' then 6 else 2
  }

  function EscapedChar(s: string): int
    requires s != ""
  {
    if s[0] != '\\' then s[0] as int
    else if |s| < 2 then 0
    else if s[1] == 'u' then
      if |s| < 6 then 0
      else if s[2] == '2' then (if s[5] == '8' then 0x2028 else 0x2029)
      else 16 * HexValue(s[4]) + HexValue(s[5])
    else if s[1] == 'n' then '\n' as int else if s[1] == 'r' then '\r' as int else if s[1] == 't' then '\t' as int
    else if s[1] == 'b' then 8 else if s[1] == 'f' then 12 else s[1] as int
  }

  lemma {:induction false} EscapeCharReads(c: char)
    ensures EscapeChar(c) != "" && EscapeChar(c)[0] != '"'
    ensures EscapedLength(EscapeChar(c)) == |EscapeChar(c)| && EscapedChar(EscapeChar(c)) == c as int
  {
  }

  lemma {:induction false} ReadsFromFront(x: string, s: string)
    requires x != "" && EscapedLength(x) == |x|
    ensures EscapedLength(x + s) == |x| && EscapedChar(x + s) == EscapedChar(x)
  {
  }

  lemma {:induction false} EscapeCharUnique(c: char, s: string, d: char, t: string)
    requires EscapeChar(c) + s == EscapeChar(d) + t
    ensures c == d && s == t
  {
    hide EscapeChar, EscapedLength, EscapedChar;
    EscapeCharReads(c);
    EscapeCharReads(d);
    ReadsFromFront(EscapeChar(c), s);
    ReadsFromFront(EscapeChar(d), t);
    PrefixUnique(EscapeChar(c), s, EscapeChar(d), t);
  }

  /** An escaped text ends at the first quote that is not part of an escape. */
  lemma {:induction false} EscapeTextUnique(x: string, s: string, y: string, t: string)
    requires EscapeText(x) + "\"" + s == EscapeText(y) + "\"" + t
    ensures x == y && s == t
  {
    hide EscapeChar;
    var v, w := EscapeText(x) + "\"" + s, EscapeText(y) + "\"" + t;
    if x != "" { EscapeCharReads(x[0]); assert v[0] == EscapeChar(x[0])[0]; }
    if y != "" { EscapeCharReads(y[0]); assert w[0] == EscapeChar(y[0])[0]; }
    assert w[0] == '"' <==> y == "";
    if x == "" {
      assert v[0] == '"' && y == "";
      assert v[1..] == s && w[1..] == t;
    } else {
      assert w[0] == v[0];
      var xs, ys := EscapeText(x[1..]) + "\"" + s, EscapeText(y[1..]) + "\"" + t;
      assert v == EscapeChar(x[0]) + xs && w == EscapeChar(y[0]) + ys;
      EscapeCharUnique(x[0], xs, y[0], ys);
      EscapeTextUnique(x[1..], s, y[1..], t);
      assert x == [x[0]] + x[1..] && y == [y[0]] + y[1..];
    }
  }

  lemma {:induction false} QuoteUnique(x: string, s: string, y: string, t: string)
    requires Quote(x) + s == Quote(y) + t
    ensures x == y && s == t
  {
    hide EscapeText, Quote;
    QuoteSplit(x, s);
    QuoteSplit(y, t);
    PrefixUnique("\"", EscapeText(x) + "\"" + s, "\"", EscapeText(y) + "\"" + t);
    EscapeTextUnique(x, s, y, t);
  }

  lemma {:induction false} QuoteSplit(x: string, s: string)
    ensures Quote(x) + s == "\"" + (EscapeText(x) + "\"" + s)
  {
    hide EscapeText;
  }

  // ----- Sorted keys -----

  ghost predicate IsLeast(k: string, S: set<string>) { k in S && forall x :: x in S && x != k ==> Less(k, x) }

  lemma {:induction false} LeastExists(S: set<string>)
    requires S != {}
    ensures exists k :: IsLeast(k, S)
    decreases |S|
  {
    var k :| k in S;
    if S == {k} {
      assert IsLeast(k, S);
    } else {
      LeastExists(S - {k});
      var m :| IsLeast(m, S - {k});
      LessTotal(k, m);
      if Less(m, k) {
        assert IsLeast(m, S);
      } else {
        forall x | x in S && x != k ensures Less(k, x) {
          if x != m { LessTransitive(k, m, x); }
        }
        assert IsLeast(k, S);
      }
    }
  }

  /** The keys of an object in byte order. */
  ghost function SortedKeys(S: set<string>): (ks: seq<string>)
    ensures forall k :: k in ks <==> k in S
    decreases |S|
  {
    if S == {} then []
    else
      LeastExists(S);
      var k :| IsLeast(k, S);
      [k] + SortedKeys(S - {k})
  }

  lemma {:induction false} SortedKeysIncreasing(S: set<string>)
    ensures Increasing(SortedKeys(S))
    decreases |S|
  {
    if S != {} {
      var ks := SortedKeys(S);
      var k := ks[0];
      assert IsLeast(k, S) && ks == [k] + SortedKeys(S - {k});
      SortedKeysIncreasing(S - {k});
    }
  }

  lemma {:induction false} IncreasingTail(a: seq<string>)
    requires Increasing(a) && a != []
    ensures Increasing(a[1..]) && forall x :: x in a[1..] ==> Less(a[0], x) && x != a[0]
  {
    forall x | x in a[1..] ensures Less(a[0], x) && x != a[0] {
      var i :| 0 <= i < |a[1..]| && a[1..][i] == x;
      assert a[1..][i] == a[i + 1];
      LessIrreflexive(x);
    }
  }

  /** Two increasing lists of the same elements start alike. */
  lemma {:induction false} SameLeast(a: seq<string>, b: seq<string>)
    requires Increasing(a) && Increasing(b) && a != [] && b != [] && forall x :: x in a <==> x in b
    ensures a[0] == b[0]
  {
    hide Less, Increasing;
    IncreasingTail(a);
    IncreasingTail(b);
    assert a[0] in a && b[0] in b;
    assert b[0] == a[0] || b[0] in a[1..];
    assert a[0] == b[0] || a[0] in b[1..];
    if a[0] != b[0] {
      LessTransitive(a[0], b[0], a[0]);
      LessIrreflexive(a[0]);
    }
  }

  /** There is one increasing list of given elements, so sorting forgets the order keys came in. */
  lemma {:induction false} IncreasingUnique(a: seq<string>, b: seq<string>)
    requires Increasing(a) && Increasing(b) && forall x :: x in a <==> x in b
    ensures a == b
  {
    hide Less, Increasing;
    if b != [] { assert b[0] in b; }
    if a != [] {
      assert a[0] in a;
      SameLeast(a, b);
      IncreasingTail(a);
      IncreasingTail(b);
      assert forall x :: x in a[1..] <==> x in a && x != a[0];
      assert forall x :: x in b[1..] <==> x in b && x != b[0];
      IncreasingUnique(a[1..], b[1..]);
      assert a == [a[0]] + a[1..] && b == [b[0]] + b[1..];
    }
  }

  // ----- The writer's text -----

  ghost function Canon(v: Json): string
    decreases v
  {
    match v
    case Null => "null"
    case Bool(b) => if b then "true" else "false"
    case Num(n) => PrintInt(n)
    case Str(s) => Quote(s)
    case Arr(xs) => "[" + ItemsText(xs) + "]"
    case Obj(m) => "{" + MembersText(SortedKeys(m.Keys), v) + "}"
  }

  ghost function ItemsText(xs: seq<Json>): string
    decreases xs
  {
    if xs == [] then "" else Canon(xs[0]) + MoreItems(xs[1..])
  }

  /** The items after one already written. */
  ghost function MoreItems(xs: seq<Json>): string
    decreases xs
  {
    if xs == [] then "" else "," + Canon(xs[0]) + MoreItems(xs[1..])
  }

  ghost function MemberText(k: string, v: Json): string
    requires v.Obj? && k in v.members
    decreases v, 0
  {
    Quote(k) + ":" + Canon(v.members[k])
  }

  ghost function MembersText(ks: seq<string>, v: Json): string
    requires v.Obj? && forall k :: k in ks ==> k in v.members
    decreases v, 1 + |ks|
  {
    if ks == [] then "" else MemberText(ks[0], v) + MoreMembers(ks[1..], v)
  }

  ghost function MoreMembers(ks: seq<string>, v: Json): string
    requires v.Obj? && forall k :: k in ks ==> k in v.members
    decreases v, 1 + |ks|
  {
    if ks == [] then "" else "," + MemberText(ks[0], v) + MoreMembers(ks[1..], v)
  }

  // ----- The writer -----

  class Buffer {
    var text: string

    constructor ()
      ensures text == ""
    {
      text := "";
    }

    method Write(s: string)
      modifies this
      ensures text == old(text) + s
    {
      text := text + s;
    }
  }

  /** sort.Strings on the distinct keys of a map. */
  method SortKeys(keys: seq<string>) returns (sorted: seq<string>)
    requires forall i, j :: 0 <= i < j < |keys| ==> keys[i] != keys[j]
    ensures Increasing(sorted) && forall k :: k in sorted <==> k in keys
  {
    sorted := [];
    for n := 0 to |keys|
      invariant Increasing(sorted) && forall k :: k in sorted <==> k in keys[..n]
    {
      var i := 0;
      while i < |sorted| && Less(sorted[i], keys[n])
        invariant 0 <= i <= |sorted| && forall k :: 0 <= k < i ==> Less(sorted[k], keys[n])
      {
        i := i + 1;
      }
      Insertion(sorted, i, keys[n]);
      assert keys[..n + 1] == keys[..n] + [keys[n]];
      sorted := sorted[..i] + [keys[n]] + sorted[i..];
    }
    assert keys[..|keys|] == keys;
  }

  lemma {:induction false} Insertion(sorted: seq<string>, i: nat, key: string)
    requires Increasing(sorted) && i <= |sorted| && key !in sorted
    requires forall k :: 0 <= k < i ==> Less(sorted[k], key)
    requires i < |sorted| ==> !Less(sorted[i], key)
    ensures Increasing(sorted[..i] + [key] + sorted[i..])
    ensures forall k :: k in sorted[..i] + [key] + sorted[i..] <==> k in sorted || k == key
  {
    forall k | i <= k < |sorted| ensures Less(key, sorted[k]) {
      LessTotal(key, sorted[i]);
      if k > i { LessTransitive(key, sorted[i], sorted[k]); }
    }
    assert sorted == sorted[..i] + sorted[i..];
  }

  /** writeCanonical: appends exactly the canonical text, whatever order the map's keys are met in. */
  method WriteCanonical(w: Buffer, v: Json)
    modifies w
    ensures w.text == old(w.text) + Canon(v)
    decreases v, 1
  {
    match v
    case Null => w.Write("null");
    case Bool(b) => if b { w.Write("true"); } else { w.Write("false"); }
    case Num(n) => w.Write(PrintInt(n));
    case Str(s) => w.Write(Quote(s));
    case Arr(xs) => WriteItems(w, v);
    case Obj(m) => WriteMembers(w, v);
  }

  /** What is still to be written before the closing bracket. */
  ghost function ItemsLeft(xs: seq<Json>, i: nat): string
    requires i <= |xs|
  {
    if i == 0 then ItemsText(xs) else MoreItems(xs[i..])
  }

  lemma {:induction false} ItemsLeftStep(xs: seq<Json>, i: nat)
    requires i <= |xs|
    ensures i == |xs| ==> ItemsLeft(xs, i) == ""
    ensures i < |xs| ==> ItemsLeft(xs, i) == (if i > 0 then "," else "") + Canon(xs[i]) + ItemsLeft(xs, i + 1)
  {
    if i < |xs| { assert xs[i..][1..] == xs[i + 1..]; }
  }

  method WriteItems(w: Buffer, v: Json)
    requires v.Arr?
    modifies w
    ensures w.text == old(w.text) + "[" + ItemsText(v.items) + "]"
    decreases v, 0
  {
    hide Canon, ItemsText, MoreItems;
    var xs := v.items;
    w.Write("[");
    ghost var goal := w.text + ItemsLeft(xs, 0);
    for i := 0 to |xs|
      invariant w.text + ItemsLeft(xs, i) == goal
    {
      hide ItemsLeft;
      ItemsLeftStep(xs, i);
      if i > 0 {
        w.Write(",");
      }
      WriteCanonical(w, xs[i]);
    }
    ItemsLeftStep(xs, |xs|);
    w.Write("]");
  }

  ghost function MembersLeft(ks: seq<string>, v: Json, i: nat): string
    requires i <= |ks| && v.Obj? && forall k :: k in ks ==> k in v.members
  {
    if i == 0 then MembersText(ks, v) else MoreMembers(ks[i..], v)
  }

  lemma {:induction false} MembersLeftStep(ks: seq<string>, v: Json, i: nat)
    requires i <= |ks| && v.Obj? && forall k :: k in ks ==> k in v.members
    ensures i == |ks| ==> MembersLeft(ks, v, i) == ""
    ensures i < |ks| ==> ks[i] in v.members
    ensures i < |ks| ==>
        MembersLeft(ks, v, i) == (if i > 0 then "," else "") + MemberText(ks[i], v) + MembersLeft(ks, v, i + 1)
  {
    if i < |ks| {
      assert ks[i..][1..] == ks[i + 1..];
      assert ks[i] in ks;
    }
  }

  /** The keys of a map in the order a range over it happens to give. */
  method KeysOf(m: map<string, Json>) returns (keys: seq<string>)
    ensures (forall k :: k in keys <==> k in m) && forall i, j :: 0 <= i < j < |keys| ==> keys[i] != keys[j]
  {
    var left := m.Keys;
    keys := [];
    while left != {}
      invariant left <= m.Keys && forall k :: k in keys <==> k in m.Keys - left
      invariant forall i, j :: 0 <= i < j < |keys| ==> keys[i] != keys[j]
    {
      var k :| k in left;
      assert k !in keys;
      forall i | 0 <= i < |keys| ensures keys[i] != k { assert keys[i] in keys; }
      keys, left := keys + [k], left - {k};
    }
  }

  /** Sorting makes the order the range gave immaterial. */
  method KeysInOrder(m: map<string, Json>) returns (sorted: seq<string>)
    ensures sorted == SortedKeys(m.Keys)
  {
    var keys := KeysOf(m);
    sorted := SortKeys(keys);
    SortedKeysIncreasing(m.Keys);
    IncreasingUnique(sorted, SortedKeys(m.Keys));
  }

  method WriteMember(w: Buffer, k: string, v: Json)
    requires v.Obj? && k in v.members
    modifies w
    ensures w.text == old(w.text) + MemberText(k, v)
    decreases v, 0, 0
  {
    w.Write(Quote(k));
    w.Write(":");
    WriteCanonical(w, v.members[k]);
  }

  method WriteMembers(w: Buffer, v: Json)
    requires v.Obj?
    modifies w
    ensures w.text == old(w.text) + "{" + MembersText(SortedKeys(v.members.Keys), v) + "}"
    decreases v, 0, 1
  {
    hide MemberText, MembersText, MoreMembers, SortedKeys;
    var m := v.members;
    w.Write("{");
    var sorted := KeysInOrder(m);
    ghost var goal := w.text + MembersLeft(sorted, v, 0);
    for i := 0 to |sorted|
      invariant w.text + MembersLeft(sorted, v, i) == goal
    {
      hide MembersLeft;
      MembersLeftStep(sorted, v, i);
      if i > 0 {
        w.Write(",");
      }
      WriteMember(w, sorted[i], v);
    }
    MembersLeftStep(sorted, v, |sorted|);
    w.Write("}");
  }

  // ----- Unique reading -----

  /** What may follow a value: nothing, or the end of what it stands in. */
  ghost predicate Ends(s: string) { s == "" || s[0] == ',' || s[0] == ']' || s[0] == '}' }

  datatype Kind = KNull | KTrue | KFalse | KNum | KStr | KArr | KObj | KOther

  ghost function KindOf(v: Json): Kind {
    match v
    case Null => KNull
    case Bool(b) => if b then KTrue else KFalse
    case Num(_) => KNum
    case Str(_) => KStr
    case Arr(_) => KArr
    case Obj(_) => KObj
  }

  ghost function KindOfChar(c: char): Kind {
    if c == 'n' then KNull else if c == 't' then KTrue else if c == 'f' then KFalse
    else if c == '-' || IsDigit(c) then KNum else if c == '"' then KStr
    else if c == '[' then KArr else if c == '{' then KObj else KOther
  }

  lemma {:induction false} FirstCharacter(v: Json)
    ensures Canon(v) != "" && KindOfChar(Canon(v)[0]) == KindOf(v)
  {
    if v.Num? {
      PrintShape(v.number);
      if v.number >= 0 { assert PrintInt(v.number)[0] in PrintInt(v.number); }
    }
  }

  lemma {:induction false} AfterFirst(a: string, s: string)
    requires a != ""
    ensures (a + s)[0] == a[0]
  {
  }

  /** Equal texts with properly ended tails come from equal trees. */
  lemma {:induction false} CanonUnique(a: Json, s: string, b: Json, t: string)
    requires Canon(a) + s == Canon(b) + t && Ends(s) && Ends(t)
    ensures a == b && s == t
    decreases a, 1
  {
    FirstCharacter(a);
    FirstCharacter(b);
    AfterFirst(Canon(a), s);
    AfterFirst(Canon(b), t);
    assert KindOf(a) == KindOf(b);
    match a
    case Null => PrefixUnique(Canon(a), s, Canon(b), t);
    case Bool(_) => PrefixUnique(Canon(a), s, Canon(b), t);
    case Num(n) => PrintIntUnique(n, s, b.number, t);
    case Str(x) => QuoteUnique(x, s, b.text, t);
    case Arr(xs) => ArraysUnique(a, s, b, t);
    case Obj(_) => ObjectsUnique(a, s, b, t);
  }

  /** An array's text after its bracket: the end, or an item and what follows it. */
  lemma {:induction false} ItemsShape(xs: seq<Json>, s: string) returns (rest: string)
    ensures xs == [] ==> Canon(Arr(xs)) + s == "[" + ("]" + s)
    ensures xs != [] ==> Canon(Arr(xs)) + s == "[" + (Canon(xs[0]) + rest) && (Canon(xs[0]) + rest)[0] != ']'
    ensures xs != [] ==> rest == MoreItems(xs[1..]) + "]" + s && Ends(rest)
  {
    rest := if xs == [] then "" else MoreItems(xs[1..]) + "]" + s;
    if xs != [] { FirstCharacter(xs[0]); AfterFirst(Canon(xs[0]), rest); }
  }

  lemma {:induction false} ArraysUnique(a: Json, s: string, b: Json, t: string)
    requires a.Arr? && b.Arr? && Canon(a) + s == Canon(b) + t
    ensures a == b && s == t
    decreases a, 0
  {
    hide *;
    var xs, ys := a.items, b.items;
    var xrest := ItemsShape(xs, s);
    var yrest := ItemsShape(ys, t);
    var v := if xs == [] then "]" + s else Canon(xs[0]) + xrest;
    var w := if ys == [] then "]" + t else Canon(ys[0]) + yrest;
    PrefixUnique("[", v, "[", w);
    if xs == [] {
      PrefixUnique("]", s, "]", t);
    } else {
      CanonUnique(xs[0], xrest, ys[0], yrest);
      MoreItemsUnique(xs[1..], s, ys[1..], t);
      assert xs == [xs[0]] + xs[1..] && ys == [ys[0]] + ys[1..];
    }
  }

  lemma {:induction false} MoreItemsShape(xs: seq<Json>, s: string) returns (rest: string)
    ensures xs == [] ==> MoreItems(xs) + "]" + s == "]" + s
    ensures xs != [] ==> MoreItems(xs) + "]" + s == "," + (Canon(xs[0]) + rest)
    ensures xs != [] ==> rest == MoreItems(xs[1..]) + "]" + s && Ends(rest)
  {
    rest := if xs == [] then "" else MoreItems(xs[1..]) + "]" + s;
  }

  lemma {:induction false} MoreItemsUnique(xs: seq<Json>, s: string, ys: seq<Json>, t: string)
    requires MoreItems(xs) + "]" + s == MoreItems(ys) + "]" + t
    ensures xs == ys && s == t
    decreases xs, 0
  {
    hide *;
    var xrest := MoreItemsShape(xs, s);
    var yrest := MoreItemsShape(ys, t);
    assert (MoreItems(xs) + "]" + s)[0] == if xs == [] then ']' else ',';
    assert (MoreItems(ys) + "]" + t)[0] == if ys == [] then ']' else ',';
    if xs == [] {
      PrefixUnique("]", s, "]", t);
    } else {
      PrefixUnique(",", Canon(xs[0]) + xrest, ",", Canon(ys[0]) + yrest);
      CanonUnique(xs[0], xrest, ys[0], yrest);
      MoreItemsUnique(xs[1..], s, ys[1..], t);
      assert xs == [xs[0]] + xs[1..] && ys == [ys[0]] + ys[1..];
    }
  }

  lemma {:induction false} MembersShape(ks: seq<string>, a: Json, s: string) returns (rest: string)
    requires a.Obj? && forall k :: k in ks ==> k in a.members
    ensures ks == [] ==> MembersText(ks, a) + "}" + s == "}" + s
    ensures ks != [] ==>
        MembersText(ks, a) + "}" + s == MemberText(ks[0], a) + rest && (MemberText(ks[0], a) + rest)[0] == '"'
    ensures ks != [] ==> rest == MoreMembers(ks[1..], a) + "}" + s && Ends(rest)
  {
    rest := if ks == [] then "" else MoreMembers(ks[1..], a) + "}" + s;
  }

  lemma {:induction false} MemberShape(k: string, a: Json, s: string)
    requires a.Obj? && k in a.members
    ensures MemberText(k, a) + s == Quote(k) + (":" + (Canon(a.members[k]) + s))
  {
    var q, c := Quote(k), Canon(a.members[k]);
    hide *;
    assert q + ":" + c + s == q + (":" + (c + s));
  }

  lemma {:induction false} ObjectShape(a: Json, s: string)
    requires a.Obj?
    ensures Canon(a) + s == "{" + (MembersText(SortedKeys(a.members.Keys), a) + "}" + s)
  {
    var m := MembersText(SortedKeys(a.members.Keys), a);
    assert Canon(a) == "{" + m + "}";
    hide *;
    assert "{" + m + "}" + s == "{" + (m + "}" + s);
  }

  lemma {:induction false} ObjectsUnique(a: Json, s: string, b: Json, t: string)
    requires a.Obj? && b.Obj? && Canon(a) + s == Canon(b) + t
    ensures a == b && s == t
    decreases a, 0, 2
  {
    var ks, ls := SortedKeys(a.members.Keys), SortedKeys(b.members.Keys);
    var v, w := MembersText(ks, a) + "}" + s, MembersText(ls, b) + "}" + t;
    hide *;
    ObjectShape(a, s);
    ObjectShape(b, t);
    PrefixUnique("{", v, "{", w);
    var vrest := MembersShape(ks, a, s);
    var wrest := MembersShape(ls, b, t);
    assert v[0] == if ks == [] then '}' else '"';
    assert w[0] == if ls == [] then '}' else '"';
    if ks == [] {
      PrefixUnique("}", s, "}", t);
    } else {
      MemberUnique(ks[0], a, vrest, ls[0], b, wrest);
      MoreMembersUnique(ks[1..], a, s, ls[1..], b, t);
      assert ks == [ks[0]] + ks[1..] && ls == [ls[0]] + ls[1..];
    }
    assert ks == ls;
    SameMembers(a, b, ks);
  }

  lemma {:induction false} SameMembers(a: Json, b: Json, ks: seq<string>)
    requires a.Obj? && b.Obj? && (forall k :: k in ks <==> k in a.members) && (forall k :: k in ks <==> k in b.members)
    requires ks != [] ==> a.members[ks[0]] == b.members[ks[0]] && forall k :: k in ks[1..] ==>
        a.members[k] == b.members[k]
    ensures a == b
  {
    assert forall k :: k in ks ==> k == ks[0] || k in ks[1..];
    assert a.members == b.members;
  }

  lemma {:induction false} MemberUnique(k: string, a: Json, s: string, l: string, b: Json, t: string)
    requires a.Obj? && b.Obj? && k in a.members && l in b.members && Ends(s) && Ends(t)
    requires MemberText(k, a) + s == MemberText(l, b) + t
    ensures k == l && a.members[k] == b.members[l] && s == t
    decreases a, 0, 0
  {
    var x, y := Canon(a.members[k]) + s, Canon(b.members[l]) + t;
    hide *;
    MemberShape(k, a, s);
    MemberShape(l, b, t);
    QuoteUnique(k, ":" + x, l, ":" + y);
    PrefixUnique(":", x, ":", y);
    CanonUnique(a.members[k], s, b.members[l], t);
  }

  lemma {:induction false} MoreMembersShape(ks: seq<string>, a: Json, s: string) returns (rest: string)
    requires a.Obj? && forall k :: k in ks ==> k in a.members
    ensures ks == [] ==> MoreMembers(ks, a) + "}" + s == "}" + s
    ensures ks != [] ==> MoreMembers(ks, a) + "}" + s == "," + (MemberText(ks[0], a) + rest)
    ensures ks != [] ==> rest == MoreMembers(ks[1..], a) + "}" + s && Ends(rest)
  {
    rest := if ks == [] then "" else MoreMembers(ks[1..], a) + "}" + s;
  }

  lemma {:induction false} MoreMembersUnique(ks: seq<string>, a: Json, s: string, ls: seq<string>, b: Json, t: string)
    requires a.Obj? && b.Obj? && (forall k :: k in ks ==> k in a.members) && (forall k :: k in ls ==> k in b.members)
    requires MoreMembers(ks, a) + "}" + s == MoreMembers(ls, b) + "}" + t
    ensures ks == ls && s == t && forall k :: k in ks ==> k in b.members && a.members[k] == b.members[k]
    decreases a, 0, 1, |ks|
  {
    hide *;
    var vrest := MoreMembersShape(ks, a, s);
    var wrest := MoreMembersShape(ls, b, t);
    assert (MoreMembers(ks, a) + "}" + s)[0] == if ks == [] then '}' else ',';
    assert (MoreMembers(ls, b) + "}" + t)[0] == if ls == [] then '}' else ',';
    if ks == [] {
      PrefixUnique("}", s, "}", t);
    } else {
      PrefixUnique(",", MemberText(ks[0], a) + vrest, ",", MemberText(ls[0], b) + wrest);
      MemberUnique(ks[0], a, vrest, ls[0], b, wrest);
      MoreMembersUnique(ks[1..], a, s, ls[1..], b, t);
      assert ks == [ks[0]] + ks[1..] && ls == [ls[0]] + ls[1..];
    }
  }

  /** The canonical text determines the tree. */
  lemma {:induction false} CanonInjective(a: Json, b: Json)
    requires Canon(a) == Canon(b)
    ensures a == b
  {
    assert Canon(a) + "" == Canon(b) + "";
    CanonUnique(a, "", b, "");
  }
}
