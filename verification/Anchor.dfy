/**
 Signed checkpoints in the c2sp note format: where the signed bytes end, and what they state
 (internal/rekorverify/verify.go).
 */
module Checkpoint {
  import opened Text
  import opened Decimal
  import opened Hex

  // ----- Hex -----

  function HighNibble(n: nat): (d: nat)
    ensures d < 16
  {
    n / 16 % 16
  }

  function LowNibble(n: nat): (d: nat)
    ensures d < 16
  {
    n % 16
  }

  lemma {:induction false} Nibbles(n: nat)
    requires n < 256
    ensures 16 * HighNibble(n) + LowNibble(n) == n
  {
  }

  /** hex.EncodeToString */
  function HexEncode(bytes: string): string {
    if bytes == "" then ""
    else [HexDigit(HighNibble(bytes[0] as int)), HexDigit(LowNibble(bytes[0] as int))] + HexEncode(bytes[1..])
  }

  /** hex.DecodeString */
  function HexDecode(s: string): Option<string> {
    if s == "" then Some("")
    else if |s| == 1 || !IsHex(s[0]) || !IsHex(s[1]) then None
    else
      var rest := HexDecode(s[2..]);
      if rest.None? then None else Some([(16 * HexValue(s[0]) + HexValue(s[1])) as char] + rest.value)
  }

  function LowerChar(c: char): char { if 'A' <= c <= 'Z' then (c as int + 32) as char else c }

  function Lower(s: string): string { if s == "" then "" else [LowerChar(s[0])] + Lower(s[1..]) }

  ghost predicate AllHex(s: string) { forall c :: c in s ==> IsHex(c) }

  ghost predicate Bytes(s: string) { forall c :: c in s ==> c as int < 256 }

  lemma {:induction false} HexDigitReads(d: nat)
    requires d < 16
    ensures IsHex(HexDigit(d)) && LowerChar(HexDigit(d)) == HexDigit(d) && HexValue(HexDigit(d)) == d
  {
  }

  /** Two digits and what follows them, decoded and lowered. */
  lemma {:induction false} PairDecodes(x: char, y: char, rest: string)
    requires IsHex(x) && IsHex(y)
    ensures HexDecode([x, y] + rest) ==
            if HexDecode(rest).None? then None
            else Some([(16 * HexValue(x) + HexValue(y)) as char] + HexDecode(rest).value)
    ensures Lower([x, y] + rest) == [LowerChar(x), LowerChar(y)] + Lower(rest)
  {
    hide IsHex, LowerChar, HexValue;
    assert ([x, y] + rest)[2..] == rest;
    LowerPair([x, y] + rest);
  }

  lemma {:induction false} HexDecodesBack(b: string)
    requires Bytes(b)
    ensures AllHex(HexEncode(b)) && Lower(HexEncode(b)) == HexEncode(b) && HexDecode(HexEncode(b)) == Some(b)
  {
    hide HexDigit, HexValue, IsHex, LowerChar, HighNibble, LowNibble, Lower, HexDecode;
    if b == "" {
      NoHex();
    } else {
      assert b[0] in b && forall c :: c in b[1..] ==> c in b;
      HexDecodesBack(b[1..]);
      var n := b[0] as int;
      var hi, lo := HighNibble(n), LowNibble(n);
      HexDigitReads(hi);
      HexDigitReads(lo);
      Nibbles(n);
      PairDecodes(HexDigit(hi), HexDigit(lo), HexEncode(b[1..]));
      assert b == [b[0]] + b[1..];
    }
  }

  lemma {:induction false} NoHex()
    ensures Lower("") == "" && HexDecode("") == Some("")
  {
  }

  lemma {:induction false} LowerPair(s: string)
    requires |s| >= 2
    ensures Lower(s) == [LowerChar(s[0]), LowerChar(s[1])] + Lower(s[2..])
  {
    assert s[1..][1..] == s[2..];
  }

  /** Case does not change what hex decodes to. */
  lemma {:induction false} HexDecodeCase(s: string)
    requires HexDecode(s).Some?
    ensures AllHex(s) && HexDecode(Lower(s)) == HexDecode(s)
  {
    if s != "" {
      HexDecodeCase(s[2..]);
      LowerPair(s);
      assert s == [s[0], s[1]] + s[2..];
      assert Lower(s)[2..] == Lower(s[2..]);
    }
  }

  // ----- Notes -----

  /** U+2014 EM DASH in UTF-8, and a space. */
  const PREFIX := ['\U{E2}', '\U{80}', '\U{94}', ' ']

  /** strings.ReplaceAll(s, "\r\n", "\n") */
  function Normalize(s: string): string {
    if s == "" then ""
    else if |s| >= 2 && s[0] == '\r' && s[1] == '\n' then "\n" + Normalize(s[2..])
    else [s[0]] + Normalize(s[1..])
  }

  /** strings.Index(s, "\n\n") from a position on. */
  function BlankLine(s: string, from: nat): (r: Option<nat>)
    requires from <= |s|
    ensures r.Some? ==> from <= r.value && r.value + 2 <= |s| && s[r.value] == '\n' && s[r.value + 1] == '\n'
    ensures forall k :: from <= k < (if r.Some? then r.value else |s| - 1) ==> !(s[k] == '\n' && s[k + 1] == '\n')
    decreases |s| - from
  {
    if from + 2 > |s| then None else if s[from] == '\n' && s[from + 1] == '\n' then Some(from)
    else BlankLine(s, from + 1)
  }

  function TrimRight(s: string, c: char): string
    decreases |s|
  {
    if s != "" && s[|s| - 1] == c then TrimRight(s[..|s| - 1], c) else s
  }

  predicate SignatureLine(line: string) { PREFIX <= line }

  function NonEmpty(lines: seq<string>): seq<string> {
    if lines == [] then [] else (if lines[0] == "" then [] else [lines[0]]) + NonEmpty(lines[1..])
  }

  datatype Note = Note(body: string, signatures: seq<string>)

  /** A note as its format defines it: the text up to its first blank line, and the signature lines after. */
  function NoteOf(checkpoint: string): Option<Note> {
    var text := Normalize(checkpoint);
    var at := BlankLine(text, 0);
    if at.None? then None
    else
      var lines := NonEmpty(Split(TrimRight(text[at.value + 2..], '\n'), '\n'));
      if lines != [] && forall l :: l in lines ==> SignatureLine(l) then Some(Note(text[..at.value + 1], lines))
      else None
  }

  lemma {:induction false} NonEmptyHead(l: string, rest: seq<string>)
    ensures NonEmpty([l] + rest) == (if l == "" then [] else [l]) + NonEmpty(rest)
  {
    assert ([l] + rest)[1..] == rest;
  }

  lemma {:induction false} NonEmptyAppend(lines: seq<string>, l: string)
    ensures NonEmpty(lines + [l]) == NonEmpty(lines) + if l == "" then [] else [l]
  {
    if lines == [] {
      NonEmptyHead(l, []);
      assert lines + [l] == [l] + [];
    } else {
      hide NonEmpty;
      var first, rest := lines[0], lines[1..];
      assert lines == [first] + rest && lines + [l] == [first] + (rest + [l]);
      NonEmptyHead(first, rest);
      NonEmptyHead(first, rest + [l]);
      NonEmptyAppend(rest, l);
    }
  }

  lemma {:induction false} NonEmptyIn(lines: seq<string>, l: string)
    requires l in lines && l != ""
    ensures l in NonEmpty(lines)
  {
    if l != lines[0] { NonEmptyIn(lines[1..], l); }
  }

  /** splitCheckpoint */
  method SplitCheckpoint(checkpoint: string) returns (note: Option<Note>)
    ensures note == NoteOf(checkpoint)
  {
    hide Split, Normalize, TrimRight;
    var text := Normalize(checkpoint);
    var idx := BlankLine(text, 0);
    if idx.None? {
      return None;
    }
    var body, tail := text[..idx.value + 1], text[idx.value + 2..];
    var lines := Split(TrimRight(tail, '\n'), '\n');
    var signatures: seq<string> := [];
    for i := 0 to |lines|
      invariant signatures == NonEmpty(lines[..i]) && forall l :: l in signatures ==> SignatureLine(l)
    {
      var line := lines[i];
      NonEmptyAppend(lines[..i], line);
      assert lines[..i] + [line] == lines[..i + 1];
      if line == "" {
        continue;
      }
      if !SignatureLine(line) {
        NonEmptyIn(lines, line);
        return None;
      }
      signatures := signatures + [line];
    }
    assert lines[..|lines|] == lines;
    if |signatures| == 0 {
      return None;
    }
    return Some(Note(body, signatures));
  }

  /** A body a note can carry: it ends its last line and has no blank line, and no carriage return. */
  ghost predicate PlainBody(body: string) {
    body != "" && body[|body| - 1] == '\n' && BlankLine(body, 0).None? && '\r' !in body
  }

  ghost predicate PlainLine(line: string) { SignatureLine(line) && '\n' !in line && '\r' !in line }

  function NoteText(note: Note): string { note.body + "\n" + Join(note.signatures, '\n') + "\n" }

  lemma {:induction false} NormalizeSame(s: string)
    requires '\r' !in s
    ensures Normalize(s) == s
  {
    if s != "" {
      assert s[0] in s;
      NormalizeSame(s[1..]);
    }
  }

  /** Lines ended as on Windows. */
  function WithReturns(s: string): string {
    if s == "" then "" else (if s[0] == '\n' then "\r\n" else [s[0]]) + WithReturns(s[1..])
  }

  lemma {:induction false} ReturnsUndone(s: string)
    requires '\r' !in s
    ensures Normalize(WithReturns(s)) == s
  {
    if s != "" {
      assert s[0] in s && s == [s[0]] + s[1..];
      ReturnsUndone(s[1..]);
      if s[0] == '\n' {
        assert WithReturns(s)[2..] == WithReturns(s[1..]);
      } else {
        assert WithReturns(s)[1..] == WithReturns(s[1..]);
      }
    }
  }

  /** A note reads the same whichever way its lines are ended. */
  lemma {:induction false} ReturnsIgnored(checkpoint: string)
    requires '\r' !in checkpoint
    ensures NoteOf(WithReturns(checkpoint)) == NoteOf(checkpoint)
  {
    hide Split, BlankLine, TrimRight, NonEmpty;
    NormalizeSame(checkpoint);
    ReturnsUndone(checkpoint);
  }

  /** Signature lines open with U+2014 as UTF-8 writes it, three bytes of four, six and six bits, and a space. */
  lemma {:induction false} PrefixIsDash()
    ensures |PREFIX| == 4 && PREFIX[3] == ' '
    ensures (PREFIX[0] as int - 0xE0) * 4096 + (PREFIX[1] as int - 0x80) * 64 + (PREFIX[2] as int - 0x80) == 0x2014
  {
  }

  lemma {:induction false} BlankLineFrom(s: string, from: nat, at: nat)
    requires from <= at && at + 2 <= |s| && s[at] == '\n' && s[at + 1] == '\n'
    requires forall k :: from <= k < at ==> !(s[k] == '\n' && s[k + 1] == '\n')
    ensures BlankLine(s, from) == Some(at)
  {
  }

  lemma {:induction false} JoinEnds(lines: seq<string>, c: char)
    requires lines != [] && forall l :: l in lines ==> l != "" && c !in l
    ensures Join(lines, c) != "" && Join(lines, c)[|Join(lines, c)| - 1] != c
  {
    var last := lines[|lines| - 1];
    assert last in lines;
    if |lines| == 1 {
      assert last[|last| - 1] in last;
    } else {
      assert forall l :: l in lines[1..] ==> l in lines;
      JoinEnds(lines[1..], c);
    }
  }

  lemma {:induction false} JoinFree(lines: seq<string>, sep: char, c: char)
    requires c != sep && forall l :: l in lines ==> c !in l
    ensures c !in Join(lines, sep)
  {
    if |lines| > 1 { JoinFree(lines[1..], sep, c); }
  }

  lemma {:induction false} NonEmptySame(lines: seq<string>)
    requires "" !in lines
    ensures NonEmpty(lines) == lines
  {
    if lines != [] {
      NonEmptySame(lines[1..]);
      assert lines == [lines[0]] + lines[1..];
    }
  }

  /** A text made like a note is one exactly when it has lines and each opens as a signature line does. */
  lemma {:induction false} NoteReads(note: Note)
    requires PlainBody(note.body) && forall l :: l in note.signatures ==> l != "" && '\n' !in l && '\r' !in l
    ensures NoteOf(NoteText(note)) ==
            if note.signatures != [] && forall l :: l in note.signatures ==> PREFIX <= l then Some(note) else None
  {
    hide Normalize, TrimRight, Split, Join, NonEmpty, BlankLine;
    var lines, text := note.signatures, NoteText(note);
    JoinFree(lines, '\n', '\r');
    NormalizeSame(text);
    BodyEndsAt(note.body, Join(lines, '\n') + "\n");
    assert text == note.body + "\n" + (Join(lines, '\n') + "\n");
    assert text[..|note.body|] == note.body && text[|note.body| + 1..] == Join(lines, '\n') + "\n";
    if lines == [] {
      NoLines();
    } else {
      JoinEnds(lines, '\n');
      TrimOne(Join(lines, '\n'), '\n');
      SplitJoin(lines, '\n');
      NonEmptySame(lines);
    }
  }

  lemma {:induction false} NoLines()
    ensures NonEmpty(Split(TrimRight(Join([], '\n') + "\n", '\n'), '\n')) == []
  {
    assert Join([], '\n') + "\n" == "\n" && TrimRight("\n", '\n') == TrimRight("\n"[..0], '\n') == "";
    assert Split("", '\n') == [""] && NonEmpty([""]) == NonEmpty([""][1..]) == [];
  }

  /** Splitting a note gives back exactly the bytes that were signed, and its signature lines. */
  lemma {:induction false} NoteRoundTrip(note: Note)
    requires PlainBody(note.body) && note.signatures != [] && forall l :: l in note.signatures ==> PlainLine(l)
    ensures NoteOf(NoteText(note)) == Some(note)
  {
    hide NoteOf, NoteText, PlainBody;
    NoteReads(note);
  }

  lemma {:induction false} TrimOne(s: string, c: char)
    requires s != "" && s[|s| - 1] != c
    ensures TrimRight(s + [c], c) == s
  {
    assert (s + [c])[..|s|] == s;
  }

  lemma {:induction false} BodyEndsAt(body: string, rest: string)
    requires PlainBody(body)
    ensures BlankLine(body + "\n" + rest, 0) == Some(|body| - 1)
  {
    var text := body + "\n" + rest;
    forall k | 0 <= k < |body| - 1 ensures !(text[k] == '\n' && text[k + 1] == '\n') {
      assert text[k] == body[k] && text[k + 1] == body[k + 1];
    }
    BlankLineFrom(text, 0, |body| - 1);
  }
}

/** The whole anchor check: entry body, Merkle proof, signed checkpoint, log id and signed entry timestamp. */
module Anchor {
  import opened Text
  import opened Decimal
  import opened Merkle
  import opened Checkpoint
  import Json = CanonicalJson

  /** The fields EntryBodyNamesLeaf reads out of an entry body. */
  datatype EntryHead = EntryHead(kind: string, algorithm: string, value: string)

  /**
   What the check calls and this model does not: SHA-256, base64, case folding and white space, the log key's
   DER form, ECDSA over a digest, and reading an entry body as JSON.
   */
  datatype Env = Env(hash: Hash, encode64: string -> string, decode64: string -> Option<string>, fold: string -> string,
      trim: string -> string, lower: string -> string, der: string -> Option<string>, verifies: (string, string,
      string) -> bool, readEntry: string -> Option<EntryHead>)

  ghost predicate Graphic(s: string) { forall c :: c in s ==> '!' <= c <= '~' }

  /** What is relied on of those functions. */
  ghost predicate Sane(env: Env) {
    && (forall x {:trigger env.hash(x)} :: |env.hash(x)| == 32 && Bytes(env.hash(x)))
    && (forall x {:trigger env.encode64(x)} ::
          Graphic(env.encode64(x)) && env.decode64(env.encode64(x)) == Some(x) && (env.encode64(x) == "" ==> x == ""))
    && (forall s {:trigger env.trim(s)} :: Graphic(s) ==> env.trim(s) == s)
    && (forall x, y {:trigger env.fold(x), env.fold(y)} :: AllHex(x) && AllHex(y) ==>
        (env.fold(x) == env.fold(y) <==> Lower(x) == Lower(y)))
  }

  datatype Input = Input(leafHashHex: string, entryBody: string, logIndex: int, treeSize: int, rootHashHex: string,
      inclusionPath: seq<string>, checkpoint: string, logId: string, logEntryId: string, integratedTime: int,
      signedEntryTimestamp: string)

  /** validateInput */
  predicate ValidInput(input: Input) {
    && input.leafHashHex != "" && input.rootHashHex != "" && input.treeSize > 0
    && 0 <= input.logIndex < input.treeSize && input.checkpoint != "" && input.logId != ""
  }

  /** EntryBodyNamesLeaf */
  predicate NamesLeaf(env: Env, body: string, leafHashHex: string) {
    var e := env.readEntry(body);
    && e.Some? && e.value.kind == "hashedrekord" && e.value.algorithm == "sha256"
    && e.value.value != "" && env.fold(e.value.value) == env.fold(leafHashHex)
  }

  /** A 32-byte digest in hex. */
  function Digest32(s: string): Option<string> {
    var raw := HexDecode(s);
    if raw.Some? && |raw.value| == 32 then raw else None
  }

  /** The digests a list of hex texts spells, if every one does. */
  function Digests32(path: seq<string>): Option<seq<string>> {
    if path == [] then Some([])
    else
      var first, rest := Digest32(path[0]), Digests32(path[1..]);
      if first.None? || rest.None? then None else Some([first.value] + rest.value)
  }

  /** validateCheckpointBody: the second line states the size and the third the root. */
  predicate BodyStates(env: Env, body: string, rootHashHex: string, treeSize: int) {
    var lines := Split(body, '\n');
    && |lines| >= 3
    && ParseInt64(env.trim(lines[1])) == Some(treeSize)
    && env.decode64(env.trim(lines[2])).Some?
    && env.fold(HexEncode(env.decode64(env.trim(lines[2])).value)) == env.fold(rootHashHex)
  }

  // ----- Signatures -----

  function IndexOf(s: string, c: char): (r: Option<nat>)
    ensures r.Some? ==> r.value < |s| && s[r.value] == c
  {
    if s == "" then None
    else if s[0] == c then Some(0)
    else var r := IndexOf(s[1..], c); if r.None? then None else Some(r.value + 1)
  }

  /** decodeCheckpointSignatureLine: the signature on a line with the given key hint. */
  function LineSignature(env: Env, line: string, hint: string): Option<string> {
    if !SignatureLine(line) then None
    else
      var rest := line[|PREFIX|..];
      var space := IndexOf(rest, ' ');
      if space.None? then None
      else
        var raw := env.decode64(env.trim(rest[space.value + 1..]));
        if raw.None? || |raw.value| < 4 || raw.value[..4] != hint then None else Some(raw.value[4..])
  }

  /** The signature of the first line that carries the hint. */
  function FirstSignature(env: Env, lines: seq<string>, hint: string): Option<string> {
    if lines == [] then None
    else if LineSignature(env, lines[0], hint).Some? then LineSignature(env, lines[0], hint)
    else FirstSignature(env, lines[1..], hint)
  }

  predicate Verifies(env: Env, key: string, text: string, sig: string) { env.verifies(key, env.hash(text), sig) }

  /** rekorKeyHint: the first four bytes of the key's digest. */
  function KeyHint(env: Env, der: string): string { if |env.hash(der)| < 4 then env.hash(der) else env.hash(der)[..4] }

  /** The checkpoint's body states this root and size, and the key signed that body. */
  predicate CheckpointHolds(env: Env, checkpoint: string, rootHashHex: string, treeSize: int, key: string) {
    && NoteOf(checkpoint).Some? && env.der(key).Some?
    && var note, sig := NoteOf(checkpoint).value,
        FirstSignature(env, NoteOf(checkpoint).value.signatures, KeyHint(env, env.der(key).value));
    && BodyStates(env, note.body, rootHashHex, treeSize)
    && sig.Some? && Verifies(env, key, note.body, sig.value)
  }

  lemma {:induction false} FirstSignatureSkips(env: Env, lines: seq<string>, hint: string, i: nat)
    requires i < |lines| && forall k :: 0 <= k < i ==> LineSignature(env, lines[k], hint).None?
    requires LineSignature(env, lines[i], hint).Some?
    ensures FirstSignature(env, lines, hint) == LineSignature(env, lines[i], hint)
  {
    if i > 0 { FirstSignatureSkips(env, lines[1..], hint, i - 1); }
  }

  lemma {:induction false} NoSignature(env: Env, lines: seq<string>, hint: string)
    requires forall k :: 0 <= k < |lines| ==> LineSignature(env, lines[k], hint).None?
    ensures FirstSignature(env, lines, hint).None?
  {
    if lines != [] { NoSignature(env, lines[1..], hint); }
  }

  /** verifySignedCheckpoint */
  method VerifySignedCheckpoint(env: Env, checkpoint: string, rootHashHex: string, treeSize: int, key: string)
      returns (ok: bool)
    ensures ok <==> CheckpointHolds(env, checkpoint, rootHashHex, treeSize, key)
  {
    hide NoteOf, BodyStates, LineSignature, FirstSignature;
    var note := SplitCheckpoint(checkpoint);
    if note.None? || !BodyStates(env, note.value.body, rootHashHex, treeSize) || env.der(key).None? {
      return false;
    }
    var hint := KeyHint(env, env.der(key).value);
    var lines := note.value.signatures;
    for i := 0 to |lines|
      invariant forall k :: 0 <= k < i ==> LineSignature(env, lines[k], hint).None?
    {
      var sig := LineSignature(env, lines[i], hint);
      if sig.None? {
        continue;
      }
      FirstSignatureSkips(env, lines, hint, i);
      return Verifies(env, key, note.value.body, sig.value);
    }
    NoSignature(env, lines, hint);
    return false;
  }

  /** What the log signs to vouch for an entry: its body, time, log and global index, as canonical JSON. */
  function StampText(body: string, time: int, logId: string, index: int): string {
    "{\"body\":"
        + (Json.Quote(body)
        + (",\"integratedTime\":"
        + (PrintInt(time) + (",\"logID\":" + (Json.Quote(logId) + (",\"logIndex\":" + (PrintInt(index) + "}")))))))
  }

  /** verifySignedEntryTimestamp, past the missing-timestamp case. */
  predicate TimestampHolds(env: Env, input: Input, logIdHex: string, key: string) {
    var index := ParseInt64(env.trim(input.logEntryId));
    && index.Some? && index.value >= 0
    && env.decode64(input.signedEntryTimestamp).Some?
    && Verifies(env, key, StampText(input.entryBody, input.integratedTime, env.lower(logIdHex), index.value),
        env.decode64(input.signedEntryTimestamp).value)
  }

  function LogIdOf(env: Env, der: string): string { HexEncode(env.hash(der)) }

  // ----- The check -----

  datatype Outcome = Holds | InvalidInput | NilKey | NoEntryBody | BadEntryBody | WrongLeaf | BadRoot | BadPath
      | BadWalk | WrongRoot
                   | BadCheckpoint | WrongLog | NoTimestamp | BadTimestamp

  /** What the proof loop makes of a decoded input. */
  function Walked(env: Env, input: Input): Walk
    requires 0 <= input.logIndex < input.treeSize && env.decode64(input.entryBody).Some?
        && Digests32(input.inclusionPath).Some?
  {
    Climb(env.hash, env.hash(LeafText(env.decode64(input.entryBody).value)), input.logIndex, input.treeSize - 1,
        Digests32(input.inclusionPath).value)
  }

  /** Body, root and path all decode. */
  predicate Decodes(env: Env, input: Input) {
    && 0 <= input.logIndex < input.treeSize
    && env.decode64(input.entryBody).Some? && Digest32(input.rootHashHex).Some? && Digests32(input.inclusionPath).Some?
  }

  /** The entry is a leaf of the tree whose root the input claims. */
  predicate Included(env: Env, input: Input) {
    Decodes(env, input) && Walked(env, input) == Root(Digest32(input.rootHashHex).value)
  }

  /** A valid input whose entry body names the leaf. */
  predicate BodyNamed(env: Env, input: Input) {
    && ValidInput(input) && input.entryBody != "" && env.decode64(input.entryBody).Some?
    && NamesLeaf(env, env.decode64(input.entryBody).value, input.leafHashHex)
  }

  predicate Accepts(env: Env, input: Input, key: string) {
    && BodyNamed(env, input) && Included(env, input)
    && CheckpointHolds(env, input.checkpoint, input.rootHashHex, input.treeSize, key)
    && env.der(key).Some? && env.fold(input.logId) == env.fold(LogIdOf(env, env.der(key).value))
    && input.signedEntryTimestamp != "" && TimestampHolds(env, input, LogIdOf(env, env.der(key).value), key)
  }

  /** An outcome other than Holds names a check the input fails, every check before it being passed. */
  predicate FailsAt(env: Env, input: Input, key: string, r: Outcome) {
    var body, der := env.decode64(input.entryBody), env.der(key);
    match r
    case Holds => false
    case InvalidInput => !ValidInput(input)
    case NilKey => false
    case NoEntryBody => ValidInput(input) && input.entryBody == ""
    case BadEntryBody => ValidInput(input) && input.entryBody != "" && body.None?
    case WrongLeaf => ValidInput(input) && input.entryBody != "" && body.Some?
        && !NamesLeaf(env, body.value, input.leafHashHex)
    case BadRoot => BodyNamed(env, input) && Digest32(input.rootHashHex).None?
    case BadPath => BodyNamed(env, input) && Digest32(input.rootHashHex).Some? && Digests32(input.inclusionPath).None?
    case BadWalk => BodyNamed(env, input) && Decodes(env, input) && !Walked(env, input).Root?
    case WrongRoot =>
      BodyNamed(env, input) && Decodes(env, input) && Walked(env, input).Root?
          && Walked(env, input).hash != Digest32(input.rootHashHex).value
    case BadCheckpoint => BodyNamed(env, input) && Included(env, input)
        && !CheckpointHolds(env, input.checkpoint, input.rootHashHex, input.treeSize, key)
    case WrongLog => CheckpointAgrees(env, input, key)
        && (der.None? || env.fold(input.logId) != env.fold(LogIdOf(env, der.value)))
    case NoTimestamp =>
      CheckpointAgrees(env, input, key) && der.Some? && env.fold(input.logId) == env.fold(LogIdOf(env, der.value))
          && input.signedEntryTimestamp == ""
    case BadTimestamp =>
      CheckpointAgrees(env, input, key) && der.Some? && env.fold(input.logId) == env.fold(LogIdOf(env, der.value))
          && input.signedEntryTimestamp != ""
          && !TimestampHolds(env, input, LogIdOf(env, der.value), key)
  }

  predicate CheckpointAgrees(env: Env, input: Input, key: string) {
    BodyNamed(env, input) && Included(env, input)
        && CheckpointHolds(env, input.checkpoint, input.rootHashHex, input.treeSize, key)
  }

  lemma {:induction false} Digests32Append(path: seq<string>, s: string)
    ensures Digests32(path + [s]) == if Digests32(path).None? || Digest32(s).None? then None
        else Some(Digests32(path).value + [Digest32(s).value])
  {
    hide Digest32;
    if path == [] {
      assert path + [s] == [s];
      assert [s][1..] == [] && Digests32([s][1..]) == Some([]);
      if Digest32(s).Some? {
        assert [Digest32(s).value] + [] == [] + [Digest32(s).value];
      }
    } else {
      Digests32Append(path[1..], s);
      assert (path + [s])[1..] == path[1..] + [s];
      var rest := Digests32(path[1..]);
      if Digest32(path[0]).Some? && rest.Some? && Digest32(s).Some? {
        assert [Digest32(path[0]).value] + rest.value + [Digest32(s).value] == [Digest32(path[0]).value]
            + (rest.value + [Digest32(s).value]);
      }
    }
  }

  lemma {:induction false} BadDigest(path: seq<string>, i: nat)
    requires i < |path| && Digest32(path[i]).None?
    ensures Digests32(path).None?
  {
    if i > 0 { BadDigest(path[1..], i - 1); }
  }

  /** The siblings, decoded one by one. */
  method DecodePath(path: seq<string>) returns (siblings: Option<seq<string>>)
    ensures siblings == Digests32(path)
  {
    var decoded: seq<string> := [];
    for i := 0 to |path|
      invariant Digests32(path[..i]) == Some(decoded)
    {
      var raw := Digest32(path[i]);
      Digests32Append(path[..i], path[i]);
      assert path[..i] + [path[i]] == path[..i + 1];
      if raw.None? {
        BadDigest(path, i);
        return None;
      }
      decoded := decoded + [raw.value];
    }
    assert path[..|path|] == path;
    return Some(decoded);
  }

  /** The first half of VerifyAnchorWithKey: from the entry body to the recomputed root. */
  method VerifyInclusion(env: Env, input: Input, key: string) returns (r: Outcome)
    requires ValidInput(input)
    ensures r == Holds <==> BodyNamed(env, input) && Included(env, input)
    ensures r != Holds ==> FailsAt(env, input, key, r) && r != NilKey && r != NoTimestamp
  {
    hide Digests32, Digest32, NamesLeaf, CheckpointHolds, TimestampHolds, LogIdOf, Climb;
    if input.entryBody == "" {
      return NoEntryBody;
    }
    var body := env.decode64(input.entryBody);
    if body.None? {
      return BadEntryBody;
    }
    if !NamesLeaf(env, body.value, input.leafHashHex) {
      return WrongLeaf;
    }
    var leafHash := env.hash(LeafText(body.value));
    var claimedRoot := Digest32(input.rootHashHex);
    if claimedRoot.None? {
      return BadRoot;
    }
    var siblings := DecodePath(input.inclusionPath);
    if siblings.None? {
      return BadPath;
    }
    var computedRoot := RecomputeRoot(env.hash, leafHash, input.logIndex, input.treeSize, siblings.value);
    if !computedRoot.Root? {
      return BadWalk;
    }
    if computedRoot.hash != claimedRoot.value {
      return WrongRoot;
    }
    return Holds;
  }

  /** VerifyAnchorWithKey */
  method VerifyAnchorWithKey(env: Env, input: Input, logKey: Option<string>) returns (r: Outcome)
    ensures r == Holds <==> logKey.Some? && Accepts(env, input, logKey.value)
    ensures r == InvalidInput <==> !ValidInput(input)
    ensures r == NilKey <==> ValidInput(input) && logKey.None?
    ensures logKey.Some? && r != Holds ==> FailsAt(env, input, logKey.value, r)
  {
    hide Included, Digests32, Digest32, NamesLeaf, CheckpointHolds, TimestampHolds, LogIdOf, Decodes, Walked;
    if !ValidInput(input) {
      return InvalidInput;
    }
    if logKey.None? {
      return NilKey;
    }
    var key := logKey.value;
    r := VerifyInclusion(env, input, key);
    if r != Holds {
      return;
    }
    var signed := VerifySignedCheckpoint(env, input.checkpoint, input.rootHashHex, input.treeSize, key);
    if !signed {
      return BadCheckpoint;
    }
    var der := env.der(key);
    if der.None? || env.fold(input.logId) != env.fold(LogIdOf(env, der.value)) {
      return WrongLog;
    }
    if input.signedEntryTimestamp == "" {
      return NoTimestamp;
    }
    if !TimestampHolds(env, input, LogIdOf(env, der.value), key) {
      return BadTimestamp;
    }
    return Holds;
  }
}
