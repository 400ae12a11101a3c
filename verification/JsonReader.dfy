/**
 A reader of JSON texts as RFC 8259 defines them, for texts without white space and numbers without fraction or
 exponent. It knows nothing of the writers; each writer's text is shown to read as the value it was written for.
 */
module JsonReader {
  import opened Text
  import opened Decimal
  import opened CanonicalJson
  import Hex
  import StringScan

  datatype Got<+T> = Got(value: T, rest: string)

  // ----- Strings (section 7) -----

  /** What a character after a backslash stands for. */
  function Named(c: char): Option<char> {
    if c == '"' || c == '\\' || c == '/' then Some(c)
    else if c == 'b' then Some('\U{8}') else if c == 'f' then Some('\U{C}') else if c == 'n' then Some('\n')
    else if c == 'r' then Some('\r') else if c == 't' then Some('\t') else None
  }

  /** Four hex digits as a character; halves of surrogate pairs are none. */
  function Coded(s: string): Option<char> {
    if |s| < 4 || !StringScan.Hex4(s[..4]) then None
    else
      var u := StringScan.Hex4Value(s[..4]);
      if u > 0xFFFF || 0xD800 <= u <= 0xDFFF then None else Some(u as char)
  }

  /** The characters up to the closing quote. */
  function ReadChars(s: string): (r: Option<Got<string>>)
    ensures r.Some? ==> |r.value.rest| < |s|
    decreases |s|
  {
    if s == "" || s[0] as int < 0x20 then None
    else if s[0] == '"' then Some(Got("", s[1..]))
    else if s[0] != '\\' then Before(s[0], ReadChars(s[1..]))
    else if |s| == 1 then None
    else if s[1] == 'u' then
      if Coded(s[2..]).None? then None else Before(Coded(s[2..]).value, ReadChars(s[6..]))
    else if Named(s[1]).None? then None else Before(Named(s[1]).value, ReadChars(s[2..]))
  }

  function Before(c: char, r: Option<Got<string>>): (q: Option<Got<string>>)
    ensures q.Some? <==> r.Some?
    ensures r.Some? ==> q.value == Got([c] + r.value.value, r.value.rest)
  {
    if r.None? then None else Some(Got([c] + r.value.value, r.value.rest))
  }

  // ----- Values -----

  /** How many digits a text opens with. */
  function DigitRun(s: string): (n: nat)
    ensures n <= |s| && AllDigits(s[..n])
  {
    if s == "" || !IsDigit(s[0]) then 0
    else assert s[..1 + DigitRun(s[1..])] == [s[0]] + s[1..][..DigitRun(s[1..])]; 1 + DigitRun(s[1..])
  }

  function ReadDigits(s: string): (r: Option<Got<nat>>)
    ensures r.Some? ==> |r.value.rest| < |s|
  {
    var n := DigitRun(s);
    if n == 0 || (s[0] == '0' && n > 1) then None else Some(Got(ReadNat(s[..n]), s[n..]))
  }

  function ReadWord(s: string, word: string, v: Json): (r: Option<Got<Json>>)
    requires word != ""
    ensures r.Some? ==> |r.value.rest| < |s|
  {
    if word <= s then Some(Got(v, s[|word|..])) else None
  }

  function ReadValue(s: string): (r: Option<Got<Json>>)
    ensures r.Some? ==> |r.value.rest| < |s|
    decreases |s|, 0
  {
    if s == "" then None
    else if s[0] == '"' then
      var r := ReadChars(s[1..]);
      if r.None? then None else Some(Got(Str(r.value.value), r.value.rest))
    else if s[0] == '[' then
      if |s| > 1 && s[1] == ']' then Some(Got(Arr([]), s[2..]))
      else
        var r := ReadItems(s[1..]);
        if r.None? then None else Some(Got(Arr(r.value.value), r.value.rest))
    else if s[0] == '{' then
      if |s| > 1 && s[1] == '}' then Some(Got(Obj(map[]), s[2..]))
      else
        var r := ReadMembers(s[1..]);
        if r.None? then None else Some(Got(Obj(r.value.value), r.value.rest))
    else if s[0] == 'n' then ReadWord(s, "null", Null)
    else if s[0] == 't' then ReadWord(s, "true", Bool(true))
    else if s[0] == 'f' then ReadWord(s, "false", Bool(false))
    else if s[0] == '-' then
      var r := ReadDigits(s[1..]);
      if r.None? then None else Some(Got(Num(0 - r.value.value), r.value.rest))
    else
      var r := ReadDigits(s);
      if r.None? then None else Some(Got(Num(r.value.value), r.value.rest))
  }

  /** The items of a list after its bracket. */
  function ReadItems(s: string): (r: Option<Got<seq<Json>>>)
    ensures r.Some? ==> |r.value.rest| < |s|
    decreases |s|, 1
  {
    var v := ReadValue(s);
    if v.None? || v.value.rest == "" then None
    else if v.value.rest[0] == ']' then Some(Got([v.value.value], v.value.rest[1..]))
    else if v.value.rest[0] != ',' then None
    else
      var more := ReadItems(v.value.rest[1..]);
      if more.None? then None else Some(Got([v.value.value] + more.value.value, more.value.rest))
  }

  /** The members of an object after its brace; a later member of the same name wins. */
  function ReadMembers(s: string): (r: Option<Got<map<string, Json>>>)
    ensures r.Some? ==> |r.value.rest| < |s|
    decreases |s|, 1
  {
    if s == "" || s[0] != '"' then None
    else
      var k := ReadChars(s[1..]);
      if k.None? || k.value.rest == "" || k.value.rest[0] != ':' then None
      else
        var v := ReadValue(k.value.rest[1..]);
        if v.None? || v.value.rest == "" then None
        else if v.value.rest[0] == '}' then Some(Got(map[k.value.value := v.value.value], v.value.rest[1..]))
        else if v.value.rest[0] != ',' then None
        else
          var more := ReadMembers(v.value.rest[1..]);
          if more.None? then None
          else Some(Got(map[k.value.value := v.value.value] + more.value.value, more.value.rest))
  }

  // ----- Reading undoes the canonical writer -----

  lemma {:induction false} CodedHex(n: nat, rest: string)
    requires n < 0x80
    ensures Coded(EscapeHex(n)[2..] + rest) == Some(n as char)
  {
    hide Hex.HexDigit, Hex.HexValue, Hex.IsHex;
    Hex.HexDigitIs(n / 16);
    Hex.HexDigitIs(n % 16);
    StringScan.Hex4Reads(0, 0, n / 16, n % 16);
    var digits := "0123456789abcdef";
    assert EscapeHex(n)[2..] == ['0', '0', digits[n / 16], digits[n % 16]];
    assert (EscapeHex(n)[2..] + rest)[..4] == EscapeHex(n)[2..];
  }

  lemma {:induction false} EscapedReads(c: char, rest: string)
    ensures ReadChars(EscapeChar(c) + rest) == Before(c, ReadChars(rest))
  {
    hide ReadChars, EscapeHex, Coded;
    var x := EscapeChar(c);
    if |x| == 6 {
      HexEscapes(c);
      if c as int == 0x2028 || c as int == 0x2029 { LineSeparators(rest); } else { CodedHex(c as int, rest); }
      CodedStep(x, c, rest);
    } else {
      ShortStep(x, c, rest);
    }
  }

  /** The characters written in six: controls, three that HTML reads, and two line separators. */
  lemma {:induction false} HexEscapes(c: char)
    requires |EscapeChar(c)| == 6
    ensures EscapeChar(c)[0] == '\\' && EscapeChar(c)[1] == 'u'
    ensures if c as int == 0x2028 then EscapeChar(c) == "\\u2028"
            else if c as int == 0x2029 then EscapeChar(c) == "\\u2029"
            else c as int < 0x80 && EscapeChar(c) == EscapeHex(c as int)
  {
  }

  lemma {:induction false} CodedStep(x: string, c: char, rest: string)
    requires |x| == 6 && x[0] == '\\' && x[1] == 'u' && Coded(x[2..] + rest) == Some(c)
    ensures ReadChars(x + rest) == Before(c, ReadChars(rest))
  {
    hide Coded;
    assert (x + rest)[2..] == x[2..] + rest && (x + rest)[6..] == rest;
  }

  lemma {:induction false} ShortStep(x: string, c: char, rest: string)
    requires x == EscapeChar(c) && |x| != 6
    ensures ReadChars(x + rest) == Before(c, ReadChars(rest))
  {
    hide Coded, EscapeHex;
    assert |EscapeHex(c as int % 256)| == 6 by { SixLong(c as int % 256); }
    assert (x + rest)[|x|..] == rest && (x + rest)[0] == x[0];
    assert |x| == 2 ==> (x + rest)[1] == x[1];
  }

  lemma {:induction false} SixLong(n: nat)
    requires n < 256
    ensures |EscapeHex(n)| == 6
  {
  }

  lemma {:induction false} LineSeparators(rest: string)
    ensures Coded("\\u2028"[2..] + rest) == Some(0x2028 as char) && Coded("\\u2029"[2..] + rest) == Some(0x2029 as char)
  {
    StringScan.Hex4Reads(2, 0, 2, 8);
    StringScan.Hex4Reads(2, 0, 2, 9);
    assert ("\\u2028"[2..] + rest)[..4] == "2028" && ("\\u2029"[2..] + rest)[..4] == "2029";
  }

  lemma {:induction false} TextReads(x: string, rest: string)
    ensures ReadChars(EscapeText(x) + "\"" + rest) == Some(Got(x, rest))
  {
    hide EscapeChar;
    if x == "" {
      assert EscapeText(x) + "\"" + rest == "\"" + rest && ("\"" + rest)[1..] == rest;
    } else {
      TextReads(x[1..], rest);
      EscapedReads(x[0], EscapeText(x[1..]) + "\"" + rest);
      assert EscapeText(x) + "\"" + rest == EscapeChar(x[0]) + (EscapeText(x[1..]) + "\"" + rest);
      assert [x[0]] + x[1..] == x;
    }
  }

  lemma {:induction false} QuoteReads(x: string, rest: string)
    ensures (Quote(x) + rest)[0] == '"' && ReadChars((Quote(x) + rest)[1..]) == Some(Got(x, rest))
  {
    hide EscapeText, ReadChars;
    TextReads(x, rest);
    assert (Quote(x) + rest)[1..] == EscapeText(x) + "\"" + rest;
  }

  lemma {:induction false} RunReads(x: string, rest: string)
    requires AllDigits(x) && StartsOutside(rest, IsDigit)
    ensures DigitRun(x + rest) == |x|
  {
    if x == "" {
      assert x + rest == rest;
    } else {
      assert x[0] in x && (x + rest)[1..] == x[1..] + rest;
      RunReads(x[1..], rest);
    }
  }

  lemma {:induction false} DigitsRead(n: nat, rest: string)
    requires StartsOutside(rest, IsDigit)
    ensures ReadDigits(PrintNat(n) + rest) == Some(Got(n, rest)) && PrintNat(n) != "" && IsDigit(PrintNat(n)[0])
  {
    hide PrintNat, ReadNat, DigitRun;
    PrintThenRead(n);
    RunReads(PrintNat(n), rest);
    assert (PrintNat(n) + rest)[..|PrintNat(n)|] == PrintNat(n) && (PrintNat(n) + rest)[|PrintNat(n)|..] == rest;
    assert PrintNat(n)[0] in PrintNat(n);
    if n == 0 { ZeroPrints(); }
  }

  lemma {:induction false} ZeroPrints()
    ensures PrintNat(0) == "0"
  {
  }

  lemma {:induction false} NumberReads(n: int, rest: string)
    requires StartsOutside(rest, IsDigit)
    ensures ReadValue(PrintInt(n) + rest) == Some(Got(Num(n), rest))
  {
    hide PrintNat, ReadDigits;
    DigitsRead(Magnitude(n), rest);
    if n < 0 { assert (PrintInt(n) + rest)[1..] == PrintNat(-n) + rest; }
  }

  /** Reading undoes the canonical writer: of every text it writes, the reader makes the tree it was written for. */
  lemma {:induction false} CanonReads(v: Json, rest: string)
    requires StartsOutside(rest, IsDigit)
    ensures ReadValue(Canon(v) + rest) == Some(Got(v, rest))
    decreases v, 3
  {
    match v
    case Num(n) => NumberReads(n, rest);
    case Str(x) =>
      hide ReadChars, Quote;
      QuoteReads(x, rest);
    case Arr(xs) => ListReads(xs, rest);
    case Obj(m) => ObjectReads(v, rest);
    case Null => WordReads("null", rest);
    case Bool(b) => WordReads(if b then "true" else "false", rest);
  }

  lemma {:induction false} WordReads(word: string, rest: string)
    ensures (word + rest)[|word|..] == rest && word <= word + rest
  {
  }

  lemma {:induction false} ListReads(xs: seq<Json>, rest: string)
    ensures ReadValue("[" + CanonicalJson.ItemsText(xs) + "]" + rest) == Some(Got(Arr(xs), rest))
    decreases xs, 1
  {
    hide ReadItems, CanonicalJson.ItemsText;
    var s := "[" + CanonicalJson.ItemsText(xs) + "]" + rest;
    if xs == [] {
      NoItems();
      assert s[2..] == rest;
    } else {
      assert s[1..] == CanonicalJson.ItemsText(xs) + ("]" + rest);
      ItemsRead(xs, rest);
      ItemsOpen(xs, "]" + rest);
    }
  }

  lemma {:induction false} NoItems()
    ensures CanonicalJson.ItemsText([]) == ""
  {
  }

  lemma {:induction false} CanonOpens(v: Json, rest: string)
    ensures Canon(v) != "" && Canon(v)[0] != ']' && Canon(v)[0] != '}' && (Canon(v) + rest)[0] == Canon(v)[0]
  {
    hide CanonicalJson.ItemsText, MembersText, PrintNat, EscapeText;
    if v.Num? { PrintOpens(v.number); }
  }

  lemma {:induction false} PrintOpens(n: int)
    ensures PrintInt(n) != "" && (PrintInt(n)[0] == '-' || IsDigit(PrintInt(n)[0]))
  {
    hide PrintNat;
    DigitsRead(Magnitude(n), "");
  }

  lemma {:induction false} ItemsOpen(xs: seq<Json>, rest: string)
    requires xs != []
    ensures (CanonicalJson.ItemsText(xs) + rest) != "" && (CanonicalJson.ItemsText(xs) + rest)[0] != ']'
  {
    hide Canon, MoreItems;
    CanonOpens(xs[0], MoreItems(xs[1..]) + rest);
    assert CanonicalJson.ItemsText(xs) + rest == Canon(xs[0]) + (MoreItems(xs[1..]) + rest);
  }

  lemma {:induction false} ItemsRead(xs: seq<Json>, rest: string)
    requires xs != []
    ensures ReadItems(CanonicalJson.ItemsText(xs) + ("]" + rest)) == Some(Got(xs, rest))
    decreases xs, 0
  {
    hide ReadValue, Canon, CanonicalJson.ItemsText, MoreItems;
    ItemsOpenWith(xs, rest);
    CanonReads(xs[0], MoreItems(xs[1..]) + ("]" + rest));
    if xs[1..] == [] {
      assert xs == [xs[0]];
    } else {
      ItemsRead(xs[1..], rest);
      assert xs == [xs[0]] + xs[1..];
    }
  }

  lemma {:induction false} ItemsOpenWith(xs: seq<Json>, rest: string)
    requires xs != []
    ensures var tail := MoreItems(xs[1..]) + ("]" + rest);
            && CanonicalJson.ItemsText(xs) + ("]" + rest) == Canon(xs[0]) + tail
            && tail != "" && StartsOutside(tail, IsDigit)
            && (if xs[1..] == [] then tail == "]" + rest && tail[1..] == rest
                else tail[0] == ',' && tail[1..] == CanonicalJson.ItemsText(xs[1..]) + ("]" + rest))
  {
    hide Canon;
    var tail := MoreItems(xs[1..]) + ("]" + rest);
    if xs[1..] != [] {
      assert tail == "," + (CanonicalJson.ItemsText(xs[1..]) + ("]" + rest));
    }
  }

  lemma {:induction false} ObjectReads(v: Json, rest: string)
    requires v.Obj?
    ensures ReadValue(Canon(v) + rest) == Some(Got(v, rest))
    decreases v, 2
  {
    hide ReadMembers, MembersText, SortedKeys;
    var ks := SortedKeys(v.members.Keys);
    var s := Canon(v) + rest;
    if ks == [] {
      NoMembers(v);
      assert s[2..] == rest && v.members == map[];
    } else {
      assert s[1..] == MembersText(ks, v) + ("}" + rest);
      MembersRead(ks, v, rest);
      assert Picked(v.members, ks) == v.members;
      MembersOpen(ks, v, "}" + rest);
    }
  }

  lemma {:induction false} NoMembers(v: Json)
    requires v.Obj?
    ensures MembersText([], v) == ""
  {
  }

  lemma {:induction false} MembersOpen(ks: seq<string>, v: Json, rest: string)
    requires v.Obj? && (forall k :: k in ks ==> k in v.members) && ks != []
    ensures MembersText(ks, v) + rest != "" && (MembersText(ks, v) + rest)[0] == '"'
  {
    hide Canon, MoreMembers, EscapeText;
    assert MembersText(ks, v) == MemberText(ks[0], v) + MoreMembers(ks[1..], v);
  }

  lemma {:induction false} MembersRead(ks: seq<string>, v: Json, rest: string)
    requires v.Obj? && (forall k :: k in ks ==> k in v.members) && ks != []
    ensures ReadMembers(MembersText(ks, v) + ("}" + rest)) == Some(Got(Picked(v.members, ks), rest))
    decreases v, 1, |ks|
  {
    hide ReadValue, ReadMembers, Canon, Quote, Picked, MembersText, MoreMembers;
    var k, tail := ks[0], MoreMembers(ks[1..], v) + ("}" + rest);
    MembersOpenWith(ks, v, rest);
    CanonReads(v.members[k], tail);
    MemberReads(k, v.members[k], tail);
    PickedMore(v.members, ks);
    if ks[1..] != [] { MembersRead(ks[1..], v, rest); }
  }

  /** The members of the given names. */
  function Picked(m: map<string, Json>, ks: seq<string>): map<string, Json>
    requires forall k :: k in ks ==> k in m
  {
    map k | k in ks :: m[k]
  }

  lemma {:induction false} PickedMore(m: map<string, Json>, ks: seq<string>)
    requires (forall k :: k in ks ==> k in m) && ks != []
    ensures Picked(m, ks) ==
            if ks[1..] == [] then map[ks[0] := m[ks[0]]] else map[ks[0] := m[ks[0]]] + Picked(m, ks[1..])
  {
    assert ks == [ks[0]] + ks[1..];
  }

  lemma {:induction false} MembersOpenWith(ks: seq<string>, v: Json, rest: string)
    requires v.Obj? && (forall k :: k in ks ==> k in v.members) && ks != []
    ensures var tail := MoreMembers(ks[1..], v) + ("}" + rest);
            && MembersText(ks, v) + ("}" + rest) == Quote(ks[0]) + (":" + (Canon(v.members[ks[0]]) + tail))
            && tail != "" && StartsOutside(tail, IsDigit)
            && (if ks[1..] == [] then tail == "}" + rest && tail[1..] == rest
                else tail[0] == ',' && tail[1..] == MembersText(ks[1..], v) + ("}" + rest))
  {
    hide Canon, Quote;
    var tail := MoreMembers(ks[1..], v) + ("}" + rest);
    if ks[1..] != [] {
      assert tail == "," + (MembersText(ks[1..], v) + ("}" + rest));
    }
  }

  /** One member at the front, up to what follows its value. */
  lemma {:induction false} MemberReads(k: string, v: Json, tail: string)
    requires ReadValue(Canon(v) + tail) == Some(Got(v, tail)) && tail != ""
    ensures ReadMembers(Quote(k) + (":" + (Canon(v) + tail))) ==
            if tail[0] == '}' then Some(Got(map[k := v], tail[1..]))
            else if tail[0] != ',' || ReadMembers(tail[1..]).None? then None
            else Some(Got(map[k := v] + ReadMembers(tail[1..]).value.value, ReadMembers(tail[1..]).value.rest))
  {
    hide ReadValue, Canon, Quote, ReadChars;
    QuoteReads(k, ":" + (Canon(v) + tail));
    assert (":" + (Canon(v) + tail))[1..] == Canon(v) + tail;
  }

  /** Letters, digits and underscores are written as they are. */
  lemma {:induction false} PlainQuote(k: string)
    requires forall c :: c in k ==> PlainChar(c)
    ensures Quote(k) == "\"" + k + "\""
  {
    hide EscapeText;
    PlainEscapes(k);
  }

  predicate PlainChar(c: char) { IsDigit(c) || 'a' <= c <= 'z' || 'A' <= c <= 'Z' || c == '_' }

  lemma {:induction false} PlainEscape(c: char)
    requires PlainChar(c)
    ensures EscapeChar(c) == [c]
  {
  }

  lemma {:induction false} PlainEscapes(k: string)
    requires forall c :: c in k ==> PlainChar(c)
    ensures EscapeText(k) == k
  {
    hide EscapeChar, PlainChar;
    if k != "" {
      assert k[0] in k && k == [k[0]] + k[1..];
      PlainEscape(k[0]);
      PlainEscapes(k[1..]);
    }
  }

  // ----- Objects written member by member -----

  ghost function LastMember(k: string, v: Json): string { Quote(k) + (":" + (Canon(v) + "}")) }

  ghost function MemberThen(k: string, v: Json, more: string): string {
    Quote(k) + (":" + (Canon(v) + ("," + more)))
  }

  lemma {:induction false} LastReads(k: string, v: Json)
    ensures ReadMembers(LastMember(k, v)) == Some(Got(map[k := v], ""))
  {
    hide ReadMembers, ReadValue, Canon, Quote;
    CanonReads(v, "}");
    MemberReads(k, v, "}");
  }

  lemma {:induction false} ThenReads(k: string, v: Json, more: string, m: map<string, Json>)
    requires ReadMembers(more) == Some(Got(m, ""))
    ensures ReadMembers(MemberThen(k, v, more)) == Some(Got(map[k := v] + m, ""))
  {
    hide ReadMembers, ReadValue, Canon, Quote;
    assert ("," + more)[1..] == more;
    CanonReads(v, "," + more);
    MemberReads(k, v, "," + more);
  }

  /** An object whose members are written one after another. */
  lemma {:induction false} ObjectOf(k: string, v: Json, more: string, m: map<string, Json>)
    requires ReadMembers(more) == Some(Got(m, ""))
    ensures ReadValue("{" + MemberThen(k, v, more)) == Some(Got(Obj(map[k := v] + m), ""))
  {
    hide ReadMembers, Canon, Quote, ReadChars;
    ThenReads(k, v, more, m);
    var text := MemberThen(k, v, more);
    QuoteReads(k, ":" + (Canon(v) + ("," + more)));
    assert ("{" + text)[1..] == text && text[0] == '"';
  }
}
