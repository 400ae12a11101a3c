/**
 checkStringText: one pass over the bytes of a JSON text that refuses a NUL or an unpaired surrogate
 written as an escape in any string (internal/artifacts/strictjson.go). A `char` is one byte.
 Strings decode to UTF-16 code units (section 7 of RFC 8259); section 8.2 names the unpaired ones.
 */
module StringScan {
  import opened Text
  import opened Hex

  predicate Hex4(s: string) { |s| == 4 && IsHex(s[0]) && IsHex(s[1]) && IsHex(s[2]) && IsHex(s[3]) }

  function Hex4Value(s: string): nat
    requires Hex4(s)
  {
    ((HexValue(s[0]) * 16 + HexValue(s[1])) * 16 + HexValue(s[2])) * 16 + HexValue(s[3])
  }

  predicate Low(u: int) { 0xDC00 <= u <= 0xDFFF }

  predicate High(u: int) { 0xD800 <= u <= 0xDBFF }

  // ----- The scan -----

  /** hex4: four hex digits at a position. */
  function HexAt(data: string, at: nat): Option<nat> {
    if at + 4 <= |data| && Hex4(data[at..at + 4]) then Some(Hex4Value(data[at..at + 4])) else None
  }

  /** What the loop answers from a position on. A truncated or malformed escape is left to the decoder to report. */
  function Scan(data: string, i: nat, inString: bool): bool
    decreases |data| - i
  {
    if i >= |data| then true
    else if !inString then Scan(data, i + 1, data[i] == '"')
    else if data[i] == '"' then Scan(data, i + 1, false)
    else if data[i] != '\\' then Scan(data, i + 1, true)
    else if i + 1 >= |data| then true
    else if data[i + 1] != 'u' then Scan(data, i + 2, true)
    else if HexAt(data, i + 2).None? then true
    else
      var v := HexAt(data, i + 2).value;
      if v == 0 || Low(v) then false
      else if High(v) then
        i + 11 < |data| && data[i + 6] == '\\' && data[i + 7] == 'u' && HexAt(data, i + 8).Some?
            && Low(HexAt(data, i + 8).value) && Scan(data, i + 12, true)
      else Scan(data, i + 6, true)
  }

  // ----- JSON texts by their grammar -----

  /** What stands inside a string: a byte, a two-byte escape, or a four-digit escape. */
  datatype Item = Plain(c: char) | Escape(c: char) | Unit(hex: string)

  /** A byte outside any string, or a string. */
  datatype Piece = Outside(c: char) | Quoted(items: seq<Item>)

  predicate ItemOk(i: Item) {
    match i
    case Plain(c) => c != '"' && c != '\\' && ' ' <= c <= '\U{FF}'
    case Escape(c) => c in "\"\\/bfnrt"
    case Unit(h) => Hex4(h)
  }

  ghost predicate PieceOk(p: Piece) {
    match p case Outside(c) => c != '"' case Quoted(items) => forall i :: i in items ==> ItemOk(i)
  }

  function ItemText(i: Item): string {
    match i case Plain(c) => [c] case Escape(c) => ['\\', c] case Unit(h) => "\\u" + h
  }

  function ItemsText(items: seq<Item>): string {
    if items == [] then "" else ItemText(items[0]) + ItemsText(items[1..])
  }

  function PieceText(p: Piece): string {
    match p case Outside(c) => [c] case Quoted(items) => "\"" + ItemsText(items) + "\""
  }

  function JsonText(ps: seq<Piece>): string {
    if ps == [] then "" else PieceText(ps[0]) + JsonText(ps[1..])
  }

  /**
   The UTF-16 code unit an item decodes to. A raw byte stands for itself: bytes of valid UTF-8 never
   decode to a surrogate, and the grammar keeps a raw NUL out of strings.
   */
  function UnitOf(i: Item): int {
    match i
    case Plain(c) => c as int
    case Escape(c) =>
      if c == 'b' then 8 else if c == 'f' then 12 else if c == 'n' then 10 else if c == 'r' then 13
      else if c == 't' then 9 else c as int
    case Unit(h) => if Hex4(h) then Hex4Value(h) else 0
  }

  function UnitsOf(items: seq<Item>): seq<int> {
    if items == [] then [] else [UnitOf(items[0])] + UnitsOf(items[1..])
  }

  /** No NUL here, no high surrogate without a low one after it, no low one without a high one before it. */
  predicate SoundAt(units: seq<int>, k: nat)
    requires k < |units|
  {
    && units[k] != 0
    && (High(units[k]) ==> k + 1 < |units| && Low(units[k + 1]))
    && (Low(units[k]) ==> 0 < k && High(units[k - 1]))
  }

  /** A decoded string with no NUL and no unpaired surrogate. */
  ghost predicate Sound(units: seq<int>) { forall k :: 0 <= k < |units| ==> SoundAt(units, k) }

  ghost predicate PiecesOk(ps: seq<Piece>) { forall p :: p in ps ==> PieceOk(p) }

  ghost predicate AllSound(ps: seq<Piece>) { forall p :: p in ps && p.Quoted? ==> Sound(UnitsOf(p.items)) }

  // ----- Soundness read from the left, one code point at a time -----

  ghost predicate SoundFrom(units: seq<int>) {
    if units == [] then true
    else if units[0] == 0 || Low(units[0]) then false
    else if High(units[0]) then |units| > 1 && Low(units[1]) && SoundFrom(units[2..])
    else SoundFrom(units[1..])
  }

  /** Dropping one whole code point leaves every later position's condition as it was. */
  lemma {:induction false} SoundShift(units: seq<int>, n: nat, k: nat)
    requires n <= k < |units| && 0 < n && !High(units[n - 1])
    ensures SoundAt(units, k) <==> SoundAt(units[n..], k - n)
  {
    var rest := units[n..];
    assert rest[k - n] == units[k];
    assert k + 1 < |units| ==> rest[k + 1 - n] == units[k + 1];
    assert k > n ==> rest[k - 1 - n] == units[k - 1];
  }

  lemma {:induction false} SoundDrop(units: seq<int>, n: nat)
    requires 0 < n <= |units| && !High(units[n - 1])
    requires forall k :: 0 <= k < n ==> SoundAt(units, k)
    ensures Sound(units) <==> Sound(units[n..])
  {
    hide SoundAt;
    forall k | n <= k < |units| ensures SoundAt(units, k) <==> SoundAt(units[n..], k - n) { SoundShift(units, n, k); }
    forall k | 0 <= k < |units[n..]| ensures SoundAt(units[n..], k) <==> SoundAt(units, k + n) {
      SoundShift(units, n, k + n);
    }
  }

  lemma {:induction false} SoundFromLeft(units: seq<int>)
    ensures SoundFrom(units) <==> Sound(units)
  {
    if units != [] {
      var n := if High(units[0]) then 2 else 1;
      if SoundAt(units, 0) {
        assert n == 2 ==> SoundAt(units, 1);
        SoundDrop(units, n);
        SoundFromLeft(units[n..]);
      }
    }
  }

  // ----- What readers make of a string -----

  /**
   A reader that replaces: an unpaired surrogate becomes U+FFFD, as encoding/json has it. A keeping reader has the
   units as they are.
   */
  function Replaced(units: seq<int>): seq<int> {
    if units == [] then []
    else if High(units[0]) && |units| > 1 && Low(units[1]) then [units[0], units[1]] + Replaced(units[2..])
    else [if High(units[0]) || Low(units[0]) then 0xFFFD else units[0]] + Replaced(units[1..])
  }

  /** The two readers see one string, and it holds no NUL for a sealed digest to be split at. */
  ghost predicate ReadAlike(units: seq<int>) { Replaced(units) == units && 0 !in units }

  lemma {:induction false} ReplacedHead(units: seq<int>)
    requires units != []
    ensures High(units[0]) && |units| > 1 && Low(units[1]) ==>
              (Replaced(units) == units <==> Replaced(units[2..]) == units[2..])
    ensures !High(units[0]) && !Low(units[0]) ==> (Replaced(units) == units <==> Replaced(units[1..]) == units[1..])
    ensures Low(units[0]) || (High(units[0]) && !(|units| > 1 && Low(units[1]))) ==> Replaced(units) != units
  {
    if High(units[0]) && |units| > 1 && Low(units[1]) {
      assert units == [units[0], units[1]] + units[2..] && Replaced(units)[2..] == Replaced(units[2..]);
    } else {
      assert units == [units[0]] + units[1..] && Replaced(units)[1..] == Replaced(units[1..]);
      assert High(units[0]) || Low(units[0]) ==> Replaced(units)[0] == 0xFFFD;
    }
  }

  lemma {:induction false} AlikeFromLeft(units: seq<int>)
    ensures ReadAlike(units) <==> SoundFrom(units)
  {
    hide Replaced;
    if units == [] {
      NoUnits();
    } else {
      ReplacedHead(units);
      var n := if High(units[0]) then 2 else 1;
      if n <= |units| {
        AlikeFromLeft(units[n..]);
        assert units == units[..n] + units[n..];
        assert 0 in units <==> 0 in units[..n] || 0 in units[n..];
        assert units[..n] == if n == 1 then [units[0]] else [units[0], units[1]];
      }
    }
  }

  lemma {:induction false} NoUnits()
    ensures Replaced([]) == []
  {
  }

  /** Soundness is exactly that: replacing and keeping readers agree on the string, and it has no NUL. */
  lemma {:induction false} SoundIffReadAlike(units: seq<int>)
    ensures Sound(units) <==> ReadAlike(units)
  {
    hide Sound, SoundFrom, ReadAlike;
    SoundFromLeft(units);
    AlikeFromLeft(units);
  }

  // ----- The scan over a text of the grammar -----

  /** A text stands at a position. */
  ghost predicate At(data: string, i: nat, text: string) { i + |text| <= |data| && data[i..i + |text|] == text }

  lemma {:induction false} AtSplit(data: string, i: nat, x: string, y: string)
    requires At(data, i, x + y)
    ensures At(data, i, x) && At(data, i + |x|, y)
  {
    assert data[i..i + |x|] == (x + y)[..|x|];
    assert data[i + |x|..i + |x| + |y|] == (x + y)[|x|..];
  }

  lemma {:induction false} ScanSimple(data: string, i: nat, it: Item)
    requires At(data, i, ItemText(it)) && ItemOk(it) && !it.Unit?
    ensures Scan(data, i, true) == Scan(data, i + |ItemText(it)|, true)
  {
    assert data[i] == ItemText(it)[0];
    assert it.Escape? ==> data[i + 1] == ItemText(it)[1];
  }

  lemma {:induction false} HexHere(data: string, i: nat, h: string)
    requires At(data, i, "\\u" + h) && Hex4(h)
    ensures i + 5 < |data| && data[i] == '\\' && data[i + 1] == 'u' && HexAt(data, i + 2) == Some(Hex4Value(h))
  {
    AtSplit(data, i, "\\u", h);
    assert data[i] == data[i..i + 2][0] && data[i + 1] == data[i..i + 2][1];
  }

  /** One code point: an item, or two when the first is a high surrogate. */
  lemma {:induction false} ScanUnit(data: string, i: nat, h: string)
    requires At(data, i, "\\u" + h) && Hex4(h)
    ensures Hex4Value(h) == 0 || Low(Hex4Value(h)) ==> !Scan(data, i, true)
    ensures Hex4Value(h) != 0 && !Low(Hex4Value(h)) && !High(Hex4Value(h)) ==>
        Scan(data, i, true) == Scan(data, i + 6, true)
    ensures High(Hex4Value(h)) && Scan(data, i, true) ==> i + 7 < |data| && data[i + 6] == '\\' && data[i + 7] == 'u'
  {
    HexHere(data, i, h);
  }

  lemma {:induction false} ScanPair(data: string, i: nat, h: string, g: string)
    requires At(data, i, "\\u" + h) && Hex4(h) && At(data, i + 6, "\\u" + g) && Hex4(g) && High(Hex4Value(h))
    ensures Scan(data, i, true) == (Low(Hex4Value(g)) && Scan(data, i + 12, true))
  {
    HexHere(data, i, h);
    HexHere(data, i + 6, g);
  }

  lemma {:induction false} ItemsSplit(data: string, i: nat, items: seq<Item>)
    requires items != [] && At(data, i, ItemsText(items) + "\"")
    ensures At(data, i, ItemText(items[0])) && At(data, i + |ItemText(items[0])|, ItemsText(items[1..]) + "\"")
    ensures |ItemsText(items)| == |ItemText(items[0])| + |ItemsText(items[1..])|
    ensures items[0].Unit? && ItemOk(items[0]) ==>
        |ItemText(items[0])| == 6 && ItemText(items[0]) == "\\u" + items[0].hex
  {
    hide At, ItemOk;
    assert ItemsText(items) + "\"" == ItemText(items[0]) + (ItemsText(items[1..]) + "\"");
    AtSplit(data, i, ItemText(items[0]), ItemsText(items[1..]) + "\"");
    UnitLength(items[0]);
  }

  lemma {:induction false} UnitLength(it: Item)
    ensures it.Unit? && ItemOk(it) ==> |ItemText(it)| == 6 && ItemText(it) == "\\u" + it.hex
  {
  }

  lemma {:induction false} ScanEnd(data: string, i: nat)
    requires At(data, i, "\"")
    ensures i < |data| && data[i] == '"' && Scan(data, i, true) == Scan(data, i + 1, false)
    ensures Scan(data, i, false) == Scan(data, i + 1, true)
  {
    assert data[i] == data[i..i + 1][0];
  }

  /** After a high surrogate the scan stops at anything but another four-digit escape. */
  lemma {:induction false} ScanAfterHigh(data: string, i: nat, h: string, items: seq<Item>)
    requires At(data, i, "\\u" + h) && Hex4(h) && High(Hex4Value(h)) && At(data, i + 6, ItemsText(items) + "\"")
    requires forall it :: it in items ==> ItemOk(it)
    requires items == [] || !items[0].Unit?
    ensures !Scan(data, i, true)
  {
    hide Scan, Hex4Value, Hex4, At;
    ScanUnit(data, i, h);
    if items == [] {
      AtSplit(data, i + 6, "", "\"");
      ScanEnd(data, i + 6);
    } else {
      assert items[0] in items;
      ItemsSplit(data, i + 6, items);
      PlainHere(data, i + 6, items[0]);
    }
  }

  lemma {:induction false} PlainHere(data: string, i: nat, it: Item)
    requires At(data, i, ItemText(it)) && ItemOk(it) && !it.Unit?
    ensures i < |data| && (data[i] == '\\' ==> i + 1 < |data| && data[i + 1] != 'u')
  {
    assert data[i] == ItemText(it)[0];
    assert it.Escape? ==> data[i + 1] == ItemText(it)[1];
  }

  /** What soundness from the left asks of the first code point. */
  lemma {:induction false} SoundStep(items: seq<Item>, u: int)
    requires items != [] && u == UnitOf(items[0])
    ensures u == 0 || Low(u) ==> !SoundFrom(UnitsOf(items))
    ensures u != 0 && !Low(u) && !High(u) ==> SoundFrom(UnitsOf(items)) == SoundFrom(UnitsOf(items[1..]))
    ensures High(u) && |items| == 1 ==> !SoundFrom(UnitsOf(items))
    ensures High(u) && |items| > 1 ==>
        SoundFrom(UnitsOf(items)) == (Low(UnitOf(items[1])) && SoundFrom(UnitsOf(items[2..])))
  {
    var units := UnitsOf(items);
    assert units[1..] == UnitsOf(items[1..]);
    if |items| > 1 {
      assert units[1..][1..] == UnitsOf(items[1..][1..]);
      assert items[1..][1..] == items[2..] && units[1..][1..] == units[2..];
      assert units[1] == units[1..][0];
    }
  }

  /** Inside a string the scan reads soundness from the left, then goes on after the closing quote. */
  lemma {:induction false} ScanItems(data: string, i: nat, items: seq<Item>)
    requires At(data, i, ItemsText(items) + "\"") && forall it :: it in items ==> ItemOk(it)
    ensures Scan(data, i, true) <==> SoundFrom(UnitsOf(items)) && Scan(data, i + |ItemsText(items)| + 1, false)
    decreases |items|, 1
  {
    if items == [] {
      AtSplit(data, i, "", "\"");
      ScanEnd(data, i);
    } else if items[0].Unit? && High(UnitOf(items[0])) {
      ScanHigh(data, i, items);
    } else {
      ScanOne(data, i, items);
    }
  }

  lemma {:induction false} ScanOne(data: string, i: nat, items: seq<Item>)
    requires At(data, i, ItemsText(items) + "\"") && forall it :: it in items ==> ItemOk(it)
    requires items != [] && (items[0].Unit? ==> !High(UnitOf(items[0])))
    ensures Scan(data, i, true) <==> SoundFrom(UnitsOf(items)) && Scan(data, i + |ItemsText(items)| + 1, false)
    decreases |items|, 0
  {
    hide Scan, ItemsText, At, Hex4Value, SoundFrom, UnitsOf;
    var it := items[0];
    assert it in items;
    ItemsSplit(data, i, items);
    SoundStep(items, UnitOf(it));
    ScanItems(data, i + |ItemText(it)|, items[1..]);
    if it.Unit? {
      ScanUnit(data, i, it.hex);
    } else {
      ScanSimple(data, i, it);
    }
  }

  lemma {:induction false} ScanHigh(data: string, i: nat, items: seq<Item>)
    requires At(data, i, ItemsText(items) + "\"") && forall it :: it in items ==> ItemOk(it)
    requires items != [] && items[0].Unit? && High(UnitOf(items[0]))
    ensures Scan(data, i, true) <==> SoundFrom(UnitsOf(items)) && Scan(data, i + |ItemsText(items)| + 1, false)
    decreases |items|, 0
  {
    hide Scan, ItemsText, At, Hex4Value, SoundFrom, UnitsOf;
    assert items[0] in items;
    ItemsSplit(data, i, items);
    SoundStep(items, UnitOf(items[0]));
    var rest := items[1..];
    if rest != [] && rest[0].Unit? {
      assert rest[0] in items;
      ItemsSplit(data, i + 6, rest);
      ScanPair(data, i, items[0].hex, rest[0].hex);
      assert rest[1..] == items[2..];
      ScanItems(data, i + 12, rest[1..]);
    } else {
      ScanAfterHigh(data, i, items[0].hex, rest);
      if rest != [] {
        assert rest[0] in items;
        PlainNotLow(rest[0]);
      }
    }
  }

  lemma {:induction false} PlainNotLow(it: Item)
    requires ItemOk(it) && !it.Unit?
    ensures !Low(UnitOf(it)) && UnitOf(it) != 0 && !High(UnitOf(it))
  {
    if it.Escape? { assert it.c as int < 256; }
  }

  lemma {:induction false} QuotedText(items: seq<Item>)
    ensures PieceText(Quoted(items)) == "\"" + (ItemsText(items) + "\"")
    ensures |PieceText(Quoted(items))| == |ItemsText(items)| + 2
  {
    hide ItemsText;
  }

  lemma {:induction false} ScanQuoted(data: string, i: nat, items: seq<Item>)
    requires At(data, i, PieceText(Quoted(items))) && forall it :: it in items ==> ItemOk(it)
    ensures Scan(data, i, false) <==> Sound(UnitsOf(items)) && Scan(data, i + |PieceText(Quoted(items))|, false)
  {
    hide *;
    QuotedText(items);
    AtSplit(data, i, "\"", ItemsText(items) + "\"");
    ScanEnd(data, i);
    ScanItems(data, i + 1, items);
    SoundFromLeft(UnitsOf(items));
  }

  lemma {:induction false} ScanOutside(data: string, i: nat, c: char)
    requires At(data, i, PieceText(Outside(c))) && c != '"'
    ensures Scan(data, i, false) == Scan(data, i + |PieceText(Outside(c))|, false)
  {
    assert data[i] == data[i..i + 1][0];
  }

  /** On a text of the grammar the scan accepts exactly when every string in it is sound. */
  lemma {:induction false} ScanPieces(data: string, i: nat, ps: seq<Piece>)
    requires At(data, i, JsonText(ps)) && i + |JsonText(ps)| == |data| && PiecesOk(ps)
    ensures Scan(data, i, false) <==> AllSound(ps)
    decreases |ps|
  {
    if ps != [] {
      ScanPiece(data, i, ps);
    }
  }

  lemma {:induction false} AllSoundHead(p: Piece, rest: seq<Piece>)
    ensures AllSound([p] + rest) <==> (p.Quoted? ==> Sound(UnitsOf(p.items))) && AllSound(rest)
    ensures PiecesOk([p] + rest) <==> PieceOk(p) && PiecesOk(rest)
  {
    assert p in [p] + rest;
    assert forall q :: q in rest ==> q in [p] + rest;
  }

  lemma {:induction false} ScanPiece(data: string, i: nat, ps: seq<Piece>)
    requires At(data, i, JsonText(ps)) && i + |JsonText(ps)| == |data| && PiecesOk(ps) && ps != []
    ensures Scan(data, i, false) <==> AllSound(ps)
    decreases |ps|, 0
  {
    hide Scan, At, AllSound, PiecesOk, Sound, UnitsOf, ItemOk, PieceText;
    var p, rest := ps[0], ps[1..];
    assert ps == [p] + rest;
    AllSoundHead(p, rest);
    AtSplit(data, i, PieceText(p), JsonText(rest));
    ScanPieces(data, i + |PieceText(p)|, rest);
    match p
    case Outside(c) => ScanOutside(data, i, c);
    case Quoted(items) => ScanQuoted(data, i, items);
  }

  /** So a text is accepted exactly when every string in it reads alike in both kinds of reader. */
  lemma {:induction false} AcceptedIffReadAlike(ps: seq<Piece>)
    requires PiecesOk(ps)
    ensures Scan(JsonText(ps), 0, false) <==> forall p :: p in ps && p.Quoted? ==> ReadAlike(UnitsOf(p.items))
  {
    hide Scan, Sound, ReadAlike, UnitsOf, PiecesOk;
    ScanPieces(JsonText(ps), 0, ps);
    forall p | p in ps && p.Quoted? ensures Sound(UnitsOf(p.items)) <==> ReadAlike(UnitsOf(p.items)) {
      SoundIffReadAlike(UnitsOf(p.items));
    }
  }

  /** checkStringText; whether the document is valid UTF-8 is passed in. */
  method CheckStringText(data: string, validUtf8: bool) returns (ok: bool)
    ensures ok <==> validUtf8 && Scan(data, 0, false)
    ensures forall ps :: PiecesOk(ps) && JsonText(ps) == data ==> (ok <==> validUtf8 && AllSound(ps))
  {
    forall ps | PiecesOk(ps) && JsonText(ps) == data ensures Scan(data, 0, false) <==> AllSound(ps) {
      ScanPieces(data, 0, ps);
    }
    if !validUtf8 {
      return false;
    }
    var inString := false;
    var i := 0;
    while i < |data|
      invariant 0 <= i && Scan(data, i, inString) == Scan(data, 0, false)
      decreases |data| - i
    {
      var c := data[i];
      if !inString {
        if c == '"' {
          inString := true;
        }
      } else if c == '"' {
        inString := false;
      } else if c == '\\' {
        if i + 1 >= |data| {
          return true;
        }
        if data[i + 1] != 'u' {
          i := i + 1;
        } else {
          var v := HexAt(data, i + 2);
          if v.None? {
            return true;
          }
          if v.value == 0 || Low(v.value) {
            return false;
          }
          if High(v.value) {
            var low := None;
            if i + 11 < |data| && data[i + 6] == '\\' && data[i + 7] == 'u' {
              low := HexAt(data, i + 8);
            }
            if low.None? || !Low(low.value) {
              return false;
            }
            i := i + 11;
          } else {
            i := i + 5;
          }
        }
      }
      i := i + 1;
    }
    return true;
  }

  // ----- What an escape spells -----

  /** Four hex digits are read most significant first, in either case. */
  lemma {:induction false} Hex4Reads(a: nat, b: nat, c: nat, d: nat)
    requires a < 16 && b < 16 && c < 16 && d < 16
    ensures var lower, upper := "0123456789abcdef", "0123456789ABCDEF";
            && Hex4([lower[a], lower[b], lower[c], lower[d]]) && Hex4([upper[a], upper[b], upper[c], upper[d]])
            && Hex4Value([lower[a], lower[b], lower[c], lower[d]]) == 4096 * a + 256 * b + 16 * c + d
            && Hex4Value([upper[a], upper[b], upper[c], upper[d]]) == 4096 * a + 256 * b + 16 * c + d
  {
    hide HexValue, IsHex;
    DigitReads(a);
    DigitReads(b);
    DigitReads(c);
    DigitReads(d);
  }

  lemma {:induction false} DigitReads(d: nat)
    requires d < 16
    ensures IsHex("0123456789abcdef"[d]) && HexValue("0123456789abcdef"[d]) == d
    ensures IsHex("0123456789ABCDEF"[d]) && HexValue("0123456789ABCDEF"[d]) == d
  {
  }

  /** A code unit in four hex digits. */
  function UnitHex(u: nat): (h: string)
    requires u < 0x10000
    ensures |h| == 4
  {
    var digits, a := "0123456789abcdef", u / 16;
    var b := a / 16;
    [digits[b / 16], digits[b % 16], digits[a % 16], digits[u % 16]]
  }

  lemma {:induction false} UnitHexReads(u: nat)
    requires u < 0x10000
    ensures Hex4(UnitHex(u)) && Hex4Value(UnitHex(u)) == u
  {
    hide HexValue, IsHex, Hex4Value, Hex4;
    var a := u / 16;
    var b := a / 16;
    Hex4Reads(b / 16, b % 16, a % 16, u % 16);
  }

  lemma {:induction false} UnitItem(u: nat)
    requires u < 0x10000
    ensures ItemOk(Unit(UnitHex(u))) && ItemText(Unit(UnitHex(u))) == "\\u" + UnitHex(u)
    ensures UnitOf(Unit(UnitHex(u))) == u
  {
    hide Hex4, Hex4Value, UnitHex;
    UnitHexReads(u);
  }

  /** A code unit as an escape. */
  function UnitText(u: nat): string
    requires u < 0x10000
  {
    "\\u" + UnitHex(u)
  }

  lemma {:induction false} ItemsAre(a: Item, b: Item)
    ensures ItemsText([a]) == ItemText(a) && UnitsOf([a]) == [UnitOf(a)]
    ensures ItemsText([a, b]) == ItemText(a) + ItemText(b) && UnitsOf([a, b]) == [UnitOf(a), UnitOf(b)]
  {
    hide ItemText, UnitOf;
    assert [a][1..] == [] && [a, b][1..] == [b] && [b][1..] == [];
    assert ItemsText([a]) == ItemText(a) + ItemsText([a][1..]) && UnitsOf([a]) == [UnitOf(a)] + UnitsOf([a][1..]);
    assert ItemsText([b]) == ItemText(b) + ItemsText([b][1..]) && UnitsOf([b]) == [UnitOf(b)] + UnitsOf([b][1..]);
    assert ItemsText([a, b]) == ItemText(a) + ItemsText([a, b][1..]);
    assert UnitsOf([a, b]) == [UnitOf(a)] + UnitsOf([a, b][1..]);
  }

  /** A string of one escape is accepted unless it spells NUL or half a surrogate pair. */
  lemma {:induction false} OneEscape(u: nat)
    requires u < 0x10000
    ensures Scan("\"" + UnitText(u) + "\"", 0, false) <==> u != 0 && !(0xD800 <= u <= 0xDFFF)
  {
    hide Scan, ItemsText, UnitsOf, ItemText, UnitHex, ItemOk, UnitOf, Sound;
    var it := Unit(UnitHex(u));
    UnitItem(u);
    EscapesScan([it]);
    ItemsAre(it, it);
    OneUnit(u);
  }

  lemma {:induction false} OneUnit(u: int)
    ensures Sound([u]) <==> u != 0 && !(0xD800 <= u <= 0xDFFF)
  {
    SoundFromLeft([u]);
  }

  /** Of two escapes, a high surrogate is accepted exactly before a low one and a low one exactly after a high one. */
  lemma {:induction false} TwoEscapes(u: nat, v: nat)
    requires u < 0x10000 && v < 0x10000
    ensures Scan("\"" + (UnitText(u) + UnitText(v)) + "\"", 0, false) <==>
            || (0xD800 <= u <= 0xDBFF && 0xDC00 <= v <= 0xDFFF)
            || (u != 0 && !(0xD800 <= u <= 0xDFFF) && v != 0 && !(0xD800 <= v <= 0xDFFF))
  {
    hide Scan, ItemsText, UnitsOf, ItemText, UnitHex, ItemOk, UnitOf, Sound;
    var a, b := Unit(UnitHex(u)), Unit(UnitHex(v));
    UnitItem(u);
    UnitItem(v);
    EscapesScan([a, b]);
    ItemsAre(a, b);
    TwoUnits(u, v);
  }

  lemma {:induction false} TwoUnits(u: int, v: int)
    ensures Sound([u, v]) <==>
            || (0xD800 <= u <= 0xDBFF && 0xDC00 <= v <= 0xDFFF)
            || (u != 0 && !(0xD800 <= u <= 0xDFFF) && v != 0 && !(0xD800 <= v <= 0xDFFF))
  {
    assert [u, v][0] == u && [u, v][1] == v;
    if Sound([u, v]) { assert SoundAt([u, v], 0) && SoundAt([u, v], 1); }
  }

  lemma {:induction false} EscapesScan(items: seq<Item>)
    requires forall it :: it in items ==> ItemOk(it)
    ensures Scan("\"" + ItemsText(items) + "\"", 0, false) <==> Sound(UnitsOf(items))
  {
    hide Scan, ItemsText, ItemOk, UnitsOf, Sound;
    var p := Quoted(items);
    assert [p][1..] == [] && JsonText([p]) == PieceText(p);
    ScanPieces(JsonText([p]), 0, [p]);
  }

  /** The two-character escapes spell the characters they are named for. */
  lemma {:induction false} EscapeSpells()
    ensures UnitOf(Escape('n')) == '\n' as int && UnitOf(Escape('r')) == '\r' as int
    ensures UnitOf(Escape('t')) == '\t' as int
    ensures UnitOf(Escape('b')) == 0x08 && UnitOf(Escape('f')) == 0x0C && UnitOf(Escape('/')) == '/' as int
    ensures UnitOf(Escape('"')) == '"' as int && UnitOf(Escape('\\')) == '\\' as int
  {
  }

  /** A cut-off or malformed escape is left to the decoder to refuse. */
  lemma {:induction false} LeftToDecoder(x: string)
    requires |x| < 4 || !Hex4(x[..4])
    ensures Scan("\"\\u" + x, 0, false) && Scan("\"\\", 0, false)
  {
    var data := "\"\\u" + x;
    assert |x| >= 4 ==> data[3..7] == x[..4];
    assert Scan(data, 1, true);
  }
}
