/**
 Strings as the verifier's encodings use them: joining on a separator, splitting,
 decimal numbers, and the one fact about prefixes that makes each encoding readable.
 A Go string is a sequence of bytes; here each `char` stands for one byte.
 */
module Text {
  datatype Option<+T> = None | Some(value: T)

  /** SHA-256 with its output written as a string: any function from byte strings. */
  type Hash = string -> string

  /** No two of the given strings share a digest. */
  ghost predicate InjectiveOn(H: Hash, S: set<string>) {
    forall x, y {:trigger SameDigest(H, x, y)} :: x in S && y in S && SameDigest(H, x, y) ==> x == y
  }

  ghost predicate SameDigest(H: Hash, x: string, y: string) { H(x) == H(y) }

  /** strings.Join with a one-byte separator. */
  function Join(parts: seq<string>, sep: char): string {
    if |parts| == 0 then ""
    else if |parts| == 1 then parts[0]
    else parts[0] + [sep] + Join(parts[1..], sep)
  }

  /** strings.Split with a one-byte separator: always at least one piece. */
  function Split(s: string, sep: char): (parts: seq<string>)
    ensures |parts| >= 1
  {
    if s == "" then [""]
    else if s[0] == sep then [""] + Split(s[1..], sep)
    else var rest := Split(s[1..], sep); [[s[0]] + rest[0]] + rest[1..]
  }

  ghost predicate AllFree(parts: seq<string>, sep: char) {
    forall p :: p in parts ==> sep !in p
  }

  lemma {:induction false} SplitPrefix(x: string, rest: string, sep: char)
    requires sep !in x
    ensures Split(x + [sep] + rest, sep) == [x] + Split(rest, sep)
  {
    var s := x + [sep] + rest;
    if x == "" {
      assert s[1..] == rest;
    } else {
      assert s[1..] == x[1..] + [sep] + rest;
      SplitPrefix(x[1..], rest, sep);
      assert [x[0]] + x[1..] == x;
    }
  }

  lemma {:induction false} SplitFree(x: string, sep: char)
    requires sep !in x
    ensures Split(x, sep) == [x]
  {
    if x != "" {
      SplitFree(x[1..], sep);
      assert [x[0]] + x[1..] == x;
    }
  }

  /** Splitting undoes joining when no part holds the separator. */
  lemma {:induction false} SplitJoin(parts: seq<string>, sep: char)
    requires |parts| >= 1 && AllFree(parts, sep)
    ensures Split(Join(parts, sep), sep) == parts
  {
    if |parts| == 1 {
      SplitFree(parts[0], sep);
    } else {
      SplitJoin(parts[1..], sep);
      SplitPrefix(parts[0], Join(parts[1..], sep), sep);
    }
  }

  /** So a join of separator-free parts has one reading. */
  lemma {:induction false} JoinInjective(a: seq<string>, b: seq<string>, sep: char)
    requires |a| >= 1 && |b| >= 1 && AllFree(a, sep) && AllFree(b, sep)
    requires Join(a, sep) == Join(b, sep)
    ensures a == b
  {
    SplitJoin(a, sep);
    SplitJoin(b, sep);
  }

  lemma {:induction false} SplitMore(x: string, rest: string, sep: char)
    ensures |Split(x + [sep] + rest, sep)| >= 1 + |Split(rest, sep)|
    ensures |Split(x + [sep] + rest, sep)| == 1 + |Split(rest, sep)| ==> sep !in x
  {
    var s := x + [sep] + rest;
    if x == "" {
      assert s[1..] == rest;
    } else {
      assert s[0] == x[0] && s[1..] == x[1..] + [sep] + rest;
      SplitMore(x[1..], rest, sep);
      assert [x[0]] + x[1..] == x;
    }
  }

  /** Splitting a join gives at least as many pieces as there were parts, and more once a part holds the separator. */
  lemma {:induction false} SplitAtLeast(parts: seq<string>, sep: char)
    requires |parts| >= 1
    ensures |Split(Join(parts, sep), sep)| >= |parts|
    ensures |Split(Join(parts, sep), sep)| == |parts| ==> AllFree(parts, sep)
  {
    if |parts| == 1 {
      SplitOne(parts[0], sep);
    } else {
      SplitAtLeast(parts[1..], sep);
      SplitMore(parts[0], Join(parts[1..], sep), sep);
      assert parts == [parts[0]] + parts[1..];
    }
  }

  lemma {:induction false} SplitOne(x: string, sep: char)
    ensures |Split(x, sep)| == 1 ==> sep !in x
  {
    if x != "" {
      SplitOne(x[1..], sep);
      assert [x[0]] + x[1..] == x;
    }
  }

  /** Against a list of the same length it is enough that one side's parts are free of the separator. */
  lemma {:induction false} JoinFixedLength(a: seq<string>, b: seq<string>, sep: char)
    requires |a| == |b| >= 1 && AllFree(a, sep) && Join(a, sep) == Join(b, sep)
    ensures a == b
  {
    SplitJoin(a, sep);
    SplitAtLeast(b, sep);
    JoinInjective(a, b, sep);
  }

  /** The byte order of strings, as sort.Strings and `<` use it. */
  predicate Less(a: string, b: string) {
    b != "" && (a == "" || a[0] < b[0] || (a[0] == b[0] && Less(a[1..], b[1..])))
  }

  /** The first place at which two strings part ways. */
  ghost predicate PartsAt(a: string, b: string, k: nat) {
    && k <= |a| && k < |b| && a[..k] == b[..k]
    && (k == |a| || a[k] < b[k])
  }

  /** A string comes before another as in a dictionary: it is a beginning of it, or smaller where they first differ. */
  lemma {:induction false} LessIff(a: string, b: string)
    ensures Less(a, b) <==> exists k: nat :: PartsAt(a, b, k)
  {
    if Less(a, b) {
      var k := LessParts(a, b);
    }
    if k: nat :| PartsAt(a, b, k) { PartsLess(a, b, k); }
  }

  lemma {:induction false} LessParts(a: string, b: string) returns (k: nat)
    requires Less(a, b)
    ensures PartsAt(a, b, k)
  {
    if a == "" || a[0] < b[0] {
      k := 0;
    } else {
      var j := LessParts(a[1..], b[1..]);
      k := j + 1;
      assert a[..k] == [a[0]] + a[1..][..j] && b[..k] == [b[0]] + b[1..][..j];
    }
  }

  lemma {:induction false} PartsLess(a: string, b: string, k: nat)
    requires PartsAt(a, b, k)
    ensures Less(a, b)
    decreases k
  {
    if k > 0 {
      assert a[..k][0] == b[..k][0] && a[..k][1..] == b[..k][1..];
      assert a[1..][..k - 1] == a[..k][1..] && b[1..][..k - 1] == b[..k][1..];
      PartsLess(a[1..], b[1..], k - 1);
    }
  }

  lemma {:induction false} LessIrreflexive(a: string)
    ensures !Less(a, a)
  {
    if a != "" { LessIrreflexive(a[1..]); }
  }

  lemma {:induction false} LessTransitive(a: string, b: string, c: string)
    requires Less(a, b) && Less(b, c)
    ensures Less(a, c)
  {
    if a != "" && a[0] == b[0] == c[0] { LessTransitive(a[1..], b[1..], c[1..]); }
  }

  lemma {:induction false} LessTotal(a: string, b: string)
    requires a != b
    ensures Less(a, b) || Less(b, a)
  {
    if a != "" && b != "" && a[0] == b[0] {
      assert a == [a[0]] + a[1..] && b == [b[0]] + b[1..];
      LessTotal(a[1..], b[1..]);
    }
  }

  /** Strictly increasing: sorted with no repeats. */
  ghost predicate Increasing(xs: seq<string>) {
    forall i, j :: 0 <= i < j < |xs| ==> Less(xs[i], xs[j])
  }

  ghost predicate StartsOutside(s: string, p: char -> bool) { s == "" || !p(s[0]) }

  /** Equal concatenations whose first parts have the same length agree part by part. */
  lemma {:induction false} PrefixUnique<T>(x: seq<T>, s: seq<T>, y: seq<T>, t: seq<T>)
    requires |x| == |y| && x + s == y + t
    ensures x == y && s == t
  {
    assert (x + s)[..|x|] == x && (y + t)[..|y|] == y;
    assert (x + s)[|x|..] == s && (y + t)[|y|..] == t;
  }

  /** Two maximal runs of the same class of characters are the same run. */
  lemma {:induction false} SpanUnique(x: string, s: string, y: string, t: string, p: char -> bool)
    requires (forall c :: c in x ==> p(c)) && (forall c :: c in y ==> p(c))
    requires StartsOutside(s, p) && StartsOutside(t, p)
    requires x + s == y + t
    ensures x == y && s == t
  {
    var w, v := x + s, y + t;
    assert forall i :: 0 <= i < |x| ==> w[i] == x[i] && p(w[i]);
    assert forall i :: 0 <= i < |y| ==> v[i] == y[i] && p(v[i]);
    assert s != "" ==> w[|x|] == s[0];
    assert t != "" ==> v[|y|] == t[0];
    assert |x| == |y|;
    PrefixUnique(x, s, y, t);
  }
}

/** Hex digits. */
module Hex {
  predicate IsHex(c: char) { '0' <= c <= '9' || 'a' <= c <= 'f' || 'A' <= c <= 'F' }

  function HexValue(c: char): (v: nat)
    ensures v < 16
  {
    if '0' <= c <= '9' then c as int - '0' as int
    else if 'a' <= c <= 'f' then c as int - 'a' as int + 10
    else if 'A' <= c <= 'F' then c as int - 'A' as int + 10
    else 0
  }

  function HexDigit(d: nat): (c: char)
    requires d < 16
  {
    if d < 10 then ('0' as int + d) as char else ('a' as int + d - 10) as char
  }

  /** Digits are written in lowercase and read in either case. */
  lemma {:induction false} HexDigitIs(d: nat)
    requires d < 16
    ensures HexDigit(d) == "0123456789abcdef"[d] && IsHex("0123456789ABCDEF"[d])
    ensures HexValue("0123456789abcdef"[d]) == HexValue("0123456789ABCDEF"[d]) == d
  {
  }
}

/** Decimal numbers as strconv prints them. */
module Decimal {
  import opened Text

  predicate IsDigit(c: char) { '0' <= c <= '9' }

  function Digit(d: nat): (c: char)
    requires d < 10
  { ('0' as int + d) as char }

  lemma {:induction false} DigitIs(d: nat)
    requires d < 10
    ensures Digit(d) == "0123456789"[d] && IsDigit(Digit(d)) && Value(Digit(d)) == d
  {
  }

  function Value(c: char): nat
    requires IsDigit(c)
  { c as int - '0' as int }

  ghost predicate AllDigits(s: string) { forall c :: c in s ==> IsDigit(c) }

  /** strconv.Itoa on a non-negative number. */
  function PrintNat(n: nat): string {
    if n < 10 then [Digit(n)] else PrintNat(n / 10) + [Digit(n % 10)]
  }

  /** strconv.FormatInt in base ten. */
  function PrintInt(n: int): string {
    if n < 0 then "-" + PrintNat(-n) else PrintNat(n)
  }

  /** The number a run of digits spells. */
  function ReadNat(s: string): nat
    requires AllDigits(s)
  {
    if s == "" then 0 else ReadNat(s[..|s| - 1]) * 10 + Value(s[|s| - 1])
  }

  lemma {:induction false} PrintThenRead(n: nat)
    ensures |PrintNat(n)| > 0 && AllDigits(PrintNat(n)) && ReadNat(PrintNat(n)) == n
    ensures n > 0 ==> PrintNat(n)[0] != '0'
  {
    if n >= 10 {
      PrintThenRead(n / 10);
      assert PrintNat(n)[..|PrintNat(n)| - 1] == PrintNat(n / 10);
    } else {
      assert PrintNat(n)[..0] == "";
    }
  }

  /** A digit run with no leading zero is the print of the number it spells. */
  lemma {:induction false} ReadThenPrint(s: string)
    requires |s| > 0 && AllDigits(s) && (s[0] == '0' ==> s == "0")
    ensures PrintNat(ReadNat(s)) == s
    ensures s != "0" ==> ReadNat(s) > 0
  {
    var init, last := s[..|s| - 1], s[|s| - 1];
    assert s == init + [last];
    if init == "" {
      assert ReadNat(init) == 0;
    } else {
      assert init[0] == s[0];
      ReadThenPrint(init);
    }
    assert last in s;
    assert Digit(Value(last)) == last;
  }

  function Magnitude(n: int): nat { if n < 0 then -n else n }

  lemma {:induction false} PrintShape(n: int)
    ensures AllDigits(PrintNat(Magnitude(n))) && ReadNat(PrintNat(Magnitude(n))) == Magnitude(n)
    ensures PrintInt(n) != "" && (n < 0 <==> PrintInt(n)[0] == '-')
    ensures n < 0 ==> PrintInt(n)[1..] == PrintNat(Magnitude(n)) && PrintNat(Magnitude(n))[0] != '0'
  {
    PrintThenRead(Magnitude(n));
    assert PrintNat(Magnitude(n))[0] in PrintNat(Magnitude(n));
  }

  /** Signs and digit runs split off the front of a text one way. */
  lemma {:induction false} SignedUnique(x: string, s: string, y: string, t: string)
    requires x != "" && y != ""
    requires AllDigits(if x[0] == '-' then x[1..] else x) && AllDigits(if y[0] == '-' then y[1..] else y)
    requires StartsOutside(s, IsDigit) && StartsOutside(t, IsDigit)
    requires x + s == y + t
    ensures x == y && s == t
  {
    assert (x + s)[0] == x[0] && (y + t)[0] == y[0];
    if x[0] == '-' {
      assert (x + s)[1..] == x[1..] + s && (y + t)[1..] == y[1..] + t;
      SpanUnique(x[1..], s, y[1..], t, IsDigit);
      assert x == "-" + x[1..] && y == "-" + y[1..];
    } else {
      SpanUnique(x, s, y, t, IsDigit);
    }
  }

  /** A printed integer followed by anything but a digit reads back one way. */
  lemma {:induction false} PrintIntUnique(m: int, s: string, n: int, t: string)
    requires StartsOutside(s, IsDigit) && StartsOutside(t, IsDigit)
    requires PrintInt(m) + s == PrintInt(n) + t
    ensures m == n && s == t
  {
    PrintShape(m);
    PrintShape(n);
    SignedUnique(PrintInt(m), s, PrintInt(n), t);
  }

  /** strconv.ParseInt(s, 10, 64): an optional sign, digits, and the int64 range. */
  function ParseInt64(s: string): (r: Option<int>) {
    var signed := s != "" && (s[0] == '-' || s[0] == '+');
    var digits := if signed then s[1..] else s;
    if digits == "" || exists c :: c in digits && !IsDigit(c) then None
    else
      var n: int := if signed && s[0] == '-' then 0 - ReadNat(digits) else ReadNat(digits);
      if -0x8000_0000_0000_0000 <= n < 0x8000_0000_0000_0000 then Some(n) else None
  }

  /** strconv.ParseUint(s, 10, 64): digits only, in the uint64 range. */
  function ParseUint64(s: string): (r: Option<int>) {
    if s == "" || exists c :: c in s && !IsDigit(c) then None
    else if ReadNat(s) < 0x1_0000_0000_0000_0000 then Some(ReadNat(s)) else None
  }

  /** regexp `^-?(0|[1-9][0-9]*)$` */
  predicate IntegerLiteral(s: string) {
    var digits := if s != "" && s[0] == '-' then s[1..] else s;
    digits != "" && (forall c :: c in digits ==> IsDigit(c)) && (digits[0] == '0' ==> digits == "0")
  }

  /** checkCanonicalNumber on a literal with no fraction or exponent. */
  predicate CanonicalInteger(s: string)
    requires IntegerLiteral(s)
  {
    s != "-0" && (ParseInt64(s).Some? || ParseUint64(s).Some?)
  }

  /** The 64-bit integers, signed or unsigned. */
  predicate In64(n: int) { -0x8000_0000_0000_0000 <= n < 0x1_0000_0000_0000_0000 }

  /** An integer literal other than "-0" is the print of the number its digits spell. */
  lemma {:induction false} LiteralIsPrint(s: string)
    requires IntegerLiteral(s) && s != "-0"
    ensures s[0] == '-' ==> AllDigits(s[1..]) && ReadNat(s[1..]) > 0 && s == PrintInt(0 - ReadNat(s[1..]))
    ensures s[0] != '-' ==> AllDigits(s) && s == PrintInt(ReadNat(s))
  {
    if s[0] == '-' {
      assert s == "-" + s[1..];
      ReadThenPrint(s[1..]);
    } else {
      ReadThenPrint(s);
    }
  }

  /** The number ParseInt and then ParseUint read an integer literal as. */
  lemma {:induction false} ParsedValue(s: string, n: int)
    requires IntegerLiteral(s) && s == PrintInt(n)
    ensures CanonicalInteger(s) <==> In64(n)
    ensures CanonicalInteger(s) ==> n == if ParseInt64(s).Some? then ParseInt64(s).value else ParseUint64(s).value
  {
    PrintShape(n);
    if n < 0 {
      assert s[1..] == PrintNat(Magnitude(n)) && s != "-0";
      assert s[0] in s && !IsDigit(s[0]);
    } else {
      assert s[0] in s;
    }
  }

  /** An integer literal is accepted exactly when it is the print of a 64-bit integer. */
  lemma {:induction false} CanonicalIntegerExact(s: string)
    requires IntegerLiteral(s)
    ensures CanonicalInteger(s) <==> exists n :: In64(n) && s == PrintInt(n)
  {
    if s != "-0" {
      LiteralIsPrint(s);
      ParsedValue(s, if s[0] == '-' then 0 - ReadNat(s[1..]) else ReadNat(s));
    }
    if n :| In64(n) && s == PrintInt(n) {
      ParsedValue(s, n);
    }
  }

  /** What an accepted literal is read as, printed again, gives the same bytes. */
  lemma {:induction false} CanonicalIntegerRoundTrip(s: string)
    requires IntegerLiteral(s) && CanonicalInteger(s)
    ensures PrintInt(if ParseInt64(s).Some? then ParseInt64(s).value else ParseUint64(s).value) == s
  {
    LiteralIsPrint(s);
    ParsedValue(s, if s[0] == '-' then 0 - ReadNat(s[1..]) else ReadNat(s));
  }
}
