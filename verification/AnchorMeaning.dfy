/** What acceptance of an anchor means about the log, and that a working log's proofs are accepted. */
module AnchorMeaning {
  import opened Text
  import opened Decimal
  import opened Hex
  import opened Merkle
  import opened Checkpoint
  import opened Anchor
  import Json = CanonicalJson
  import JsonReader

  // ----- What a checkpoint body states -----

  /** The checkpoint of a tree: origin, size, root, and any extension lines. */
  function CheckpointBody(env: Env, origin: string, n: nat, root: string, extra: string): string {
    origin + "\n" + (PrintNat(n) + "\n" + (env.encode64(root) + "\n" + extra))
  }

  lemma {:induction false} GraphicLine(s: string)
    requires Graphic(s)
    ensures '\n' !in s
  {
  }

  lemma {:induction false} DigitsGraphic(n: nat)
    ensures Graphic(PrintNat(n))
  {
    PrintThenRead(n);
  }

  lemma {:induction false} ParsePrinted(n: nat)
    ensures ParseInt64(PrintNat(n)) == if n < 0x8000_0000_0000_0000 then Some(n) else None
  {
    PrintThenRead(n);
    assert PrintNat(n)[0] in PrintNat(n);
  }

  lemma {:induction false} BodyLines(env: Env, origin: string, n: nat, root: string, extra: string)
    requires Sane(env) && '\n' !in origin
    ensures Split(CheckpointBody(env, origin, n, root, extra), '\n') == [origin, PrintNat(n), env.encode64(root)]
        + Split(extra, '\n')
  {
    hide Split, PrintNat;
    DigitsGraphic(n);
    GraphicLine(PrintNat(n));
    assert Graphic(env.encode64(root));
    GraphicLine(env.encode64(root));
    SplitPrefix(origin, PrintNat(n) + "\n" + (env.encode64(root) + "\n" + extra), '\n');
    SplitPrefix(PrintNat(n), env.encode64(root) + "\n" + extra, '\n');
    SplitPrefix(env.encode64(root), extra, '\n');
  }

  lemma {:induction false} SameDigestHex(env: Env, root: string, hex: string, claimed: string)
    requires Sane(env) && Bytes(root) && Digest32(hex) == Some(claimed)
    ensures env.fold(HexEncode(root)) == env.fold(hex) <==> root == claimed
  {
    HexDecodesBack(root);
    HexDecodeCase(hex);
    if root == claimed { SameHex(root, hex); }
  }

  /** Two hex texts of the same bytes differ in case at most. */
  lemma {:induction false} SameHex(root: string, hex: string)
    requires HexDecode(hex) == Some(root)
    ensures Lower(HexEncode(root)) == Lower(hex)
  {
    if hex != "" {
      var c := (16 * HexValue(hex[0]) + HexValue(hex[1])) as char;
      var rest := HexDecode(hex[2..]).value;
      assert root == [c] + rest && root[1..] == rest && root[0] == c;
      SameHex(rest, hex[2..]);
      PairBack(hex[0], hex[1]);
      LowerPair(hex);
      LowerPair(HexEncode(root));
      assert HexEncode(root)[2..] == HexEncode(rest);
    }
  }

  lemma {:induction false} PairBack(a: char, b: char)
    requires IsHex(a) && IsHex(b)
    ensures var n := 16 * HexValue(a) + HexValue(b);
            LowerChar(HexDigit(HighNibble(n))) == LowerChar(a) && LowerChar(HexDigit(LowNibble(n))) == LowerChar(b)
  {
    hide HexDigit, HexValue, LowerChar, IsHex;
    NibblesBack(HexValue(a), HexValue(b));
    DigitBack(a);
    DigitBack(b);
  }

  lemma {:induction false} NibblesBack(x: nat, y: nat)
    requires x < 16 && y < 16
    ensures HighNibble(16 * x + y) == x && LowNibble(16 * x + y) == y
  {
  }

  lemma {:induction false} DigitBack(a: char)
    requires IsHex(a)
    ensures LowerChar(HexDigit(HexValue(a))) == LowerChar(a)
  {
  }

  /** The body check reads size and root off a checkpoint exactly as the log wrote them. */
  lemma {:induction false} BodyReads(env: Env, origin: string, n: nat, root: string, extra: string, rootHex: string,
      size: int)
    requires Sane(env) && '\n' !in origin && Bytes(root) && Digest32(rootHex).Some?
    ensures BodyStates(env, CheckpointBody(env, origin, n, root, extra), rootHex, size)
            <==> size == n < 0x8000_0000_0000_0000 && Digest32(rootHex) == Some(root)
  {
    hide Split, PrintNat, CheckpointBody, HexEncode, Digest32, ParseInt64, Bytes;
    BodyLines(env, origin, n, root, extra);
    DigitsGraphic(n);
    assert env.trim(PrintNat(n)) == PrintNat(n);
    assert Graphic(env.encode64(root)) && env.trim(env.encode64(root)) == env.encode64(root);
    ParsePrinted(n);
    SameDigestHex(env, root, rootHex, Digest32(rootHex).value);
  }

  // ----- What the log signs -----

  ghost function RootOf(env: Env, L: seq<string>, n: nat): string
    requires 0 < n <= |L|
  {
    TreeHash(env.hash, LeafHashes(env.hash, L[..n]))
  }

  /** A text is the checkpoint of the first n entries. */
  ghost predicate StatesTree(env: Env, t: string, L: seq<string>, origin: string, n: nat, extra: string) {
    0 < n <= |L| && '\n' !in origin && t == CheckpointBody(env, origin, n, RootOf(env, L, n), extra)
  }

  /** An entry as the log recorded it. */
  datatype Stamp = Stamp(body: string, time: int, logId: string, index: int)

  function TextOf(s: Stamp): string { StampText(s.body, s.time, s.logId, s.index) }

  ghost predicate IsCheckpoint(env: Env, t: string, L: seq<string>) {
    exists origin, n: nat, extra :: StatesTree(env, t, L, origin, n, extra)
  }

  ghost predicate IsStamp(t: string, R: set<Stamp>) { exists s :: s in R && t == TextOf(s) }

  ghost predicate SignedText(env: Env, digest: string, T: set<string>) { exists t :: t in T && env.hash(t) == digest }

  /** The key signs only checkpoints of the real log L and stamps of the recorded entries R; T is all it ever signed. */
  ghost predicate HonestLog(env: Env, key: string, L: seq<string>, R: set<Stamp>, T: set<string>) {
    && (forall t :: t in T ==> IsCheckpoint(env, t, L) || IsStamp(t, R))
    && (forall digest, sig {:trigger env.verifies(key, digest, sig)} :: env.verifies(key, digest, sig) ==>
        SignedText(env, digest, T))
  }

  // ----- Stamps read back -----

  lemma {:induction false} EscapedLine(s: string)
    ensures '\n' !in Json.EscapeText(s)
  {
    if s != "" { EscapedLine(s[1..]); }
  }

  lemma {:induction false} StampOneLine(s: Stamp)
    ensures '\n' !in TextOf(s)
  {
    hide Json.EscapeText, PrintNat;
    EscapedLine(s.body);
    EscapedLine(s.logId);
    IntLine(s.time);
    IntLine(s.index);
  }

  lemma {:induction false} IntLine(n: int)
    ensures '\n' !in PrintInt(n)
  {
    PrintShape(n);
    PrintThenRead(if n < 0 then -n else n);
  }

  /** A stamp's text fixes its body, time, log and index. */
  lemma {:induction false} StampUnique(a: Stamp, b: Stamp)
    requires TextOf(a) == TextOf(b)
    ensures a == b
  {
    hide Json.Quote, PrintInt;
    var x3, y3 := ",\"logIndex\":" + (PrintInt(a.index) + "}"), ",\"logIndex\":" + (PrintInt(b.index) + "}");
    var x2, y2 := ",\"logID\":" + (Json.Quote(a.logId) + x3), ",\"logID\":" + (Json.Quote(b.logId) + y3);
    var x1, y1 := ",\"integratedTime\":" + (PrintInt(a.time) + x2), ",\"integratedTime\":" + (PrintInt(b.time) + y2);
    PrefixUnique("{\"body\":", Json.Quote(a.body) + x1, "{\"body\":", Json.Quote(b.body) + y1);
    Json.QuoteUnique(a.body, x1, b.body, y1);
    PrefixUnique(",\"integratedTime\":", PrintInt(a.time) + x2, ",\"integratedTime\":", PrintInt(b.time) + y2);
    PrintIntUnique(a.time, x2, b.time, y2);
    PrefixUnique(",\"logID\":", Json.Quote(a.logId) + x3, ",\"logID\":", Json.Quote(b.logId) + y3);
    Json.QuoteUnique(a.logId, x3, b.logId, y3);
    PrefixUnique(",\"logIndex\":", PrintInt(a.index) + "}", ",\"logIndex\":", PrintInt(b.index) + "}");
    PrintIntUnique(a.index, "}", b.index, "}");
  }

  /** What the log signs for an entry reads, in any JSON reader, as an object of four members by these names. */
  lemma {:induction false} StampIsJson(s: Stamp)
    ensures JsonReader.ReadValue(TextOf(s)) ==
            Some(JsonReader.Got(Json.Obj(map["body" := Json.Str(s.body), "integratedTime" := Json.Num(s.time),
                "logID" := Json.Str(s.logId), "logIndex" := Json.Num(s.index)]), ""))
  {
    hide JsonReader.ReadValue, JsonReader.ReadMembers, JsonReader.MemberThen, JsonReader.LastMember, StampText;
    var v0, v1, v2, v3 := Json.Str(s.body), Json.Num(s.time), Json.Str(s.logId), Json.Num(s.index);
    var t2 := JsonReader.LastMember("logIndex", v3);
    var t1 := JsonReader.MemberThen("logID", v2, t2);
    var t0 := JsonReader.MemberThen("integratedTime", v1, t1);
    JsonReader.LastReads("logIndex", v3);
    JsonReader.ThenReads("logID", v2, t2, map["logIndex" := v3]);
    JsonReader.ThenReads("integratedTime", v1, t1, map["logID" := v2] + map["logIndex" := v3]);
    var m := map["integratedTime" := v1] + (map["logID" := v2] + map["logIndex" := v3]);
    JsonReader.ObjectOf("body", v0, t0, m);
    StampParts(s);
    assert map["body" := v0] + m == map["body" := v0, "integratedTime" := v1, "logID" := v2, "logIndex" := v3];
  }

  /** The stamp's text, member by member. */
  lemma {:induction false} StampParts(s: Stamp)
    ensures TextOf(s) == "{" +
        JsonReader.MemberThen("body", Json.Str(s.body),
        JsonReader.MemberThen("integratedTime", Json.Num(s.time),
        JsonReader.MemberThen("logID", Json.Str(s.logId),
        JsonReader.LastMember("logIndex", Json.Num(s.index)))))
  {
    hide Json.Quote, PrintInt, JsonReader.MemberThen, JsonReader.LastMember;
    var t2 := JsonReader.LastMember("logIndex", Json.Num(s.index));
    var t1 := JsonReader.MemberThen("logID", Json.Str(s.logId), t2);
    var t0 := JsonReader.MemberThen("integratedTime", Json.Num(s.time), t1);
    StampTail(s, t2, t1);
    StampMiddle(s, t1, t0);
    StampHead(s, t0);
  }

  /** The time. */
  lemma {:induction false} StampMiddle(s: Stamp, t1: string, t0: string)
    requires t0 == JsonReader.MemberThen("integratedTime", Json.Num(s.time), t1)
    ensures "," + t0 == ",\"integratedTime\":" + (PrintInt(s.time) + ("," + t1))
  {
    hide Json.Quote, PrintInt, JsonReader.MemberThen;
    NextLine("integratedTime", ",\"integratedTime\":", PrintInt(s.time), Json.Num(s.time), t1);
  }

  /** The entry's body. */
  lemma {:induction false} StampHead(s: Stamp, t0: string)
    ensures "{" + JsonReader.MemberThen("body", Json.Str(s.body), t0) ==
        "{\"body\":" + (Json.Quote(s.body) + ("," + t0))
  {
    hide Json.Quote, JsonReader.MemberThen;
    NextLine("body", ",\"body\":", Json.Quote(s.body), Json.Str(s.body), t0);
    OpeningBrace(",\"body\":", JsonReader.MemberThen("body", Json.Str(s.body), t0), Json.Quote(s.body) + ("," + t0));
    assert ",\"body\":"[1..] == "\"body\":" && "{" + "\"body\":" == "{\"body\":";
  }

  /** The log's id and the index. */
  lemma {:induction false} StampTail(s: Stamp, t2: string, t1: string)
    requires t2 == JsonReader.LastMember("logIndex", Json.Num(s.index))
    requires t1 == JsonReader.MemberThen("logID", Json.Str(s.logId), t2)
    ensures "," + t1 == ",\"logID\":" + (Json.Quote(s.logId) + (",\"logIndex\":" + (PrintInt(s.index) + "}")))
  {
    hide Json.Quote, PrintInt, JsonReader.MemberThen, JsonReader.LastMember;
    LastLine("logIndex", ",\"logIndex\":", PrintInt(s.index), Json.Num(s.index));
    NextLine("logID", ",\"logID\":", Json.Quote(s.logId), Json.Str(s.logId), t2);
  }

  lemma {:induction false} OpeningBrace(front: string, text: string, rest: string)
    requires front != "" && front[0] == ',' && "," + text == front + rest
    ensures "{" + text == ("{" + front[1..]) + rest
  {
    assert text == ("," + text)[1..] == (front + rest)[1..] == front[1..] + rest;
  }

  lemma {:induction false} LastLine(k: string, opening: string, text: string, v: Json.Json)
    requires forall c :: c in k ==> JsonReader.PlainChar(c)
    requires opening == "," + ("\"" + k + "\"") + ":" && text == Json.Canon(v)
    ensures "," + JsonReader.LastMember(k, v) == opening + (text + "}")
  {
    hide Json.Quote, Json.Canon;
    JsonReader.PlainQuote(k);
  }

  lemma {:induction false} NextLine(k: string, opening: string, text: string, v: Json.Json, more: string)
    requires forall c :: c in k ==> JsonReader.PlainChar(c)
    requires opening == "," + ("\"" + k + "\"") + ":" && text == Json.Canon(v)
    ensures "," + JsonReader.MemberThen(k, v, more) == opening + (text + ("," + more))
  {
    hide Json.Quote, Json.Canon;
    JsonReader.PlainQuote(k);
  }

  // ----- Soundness -----

  ghost function BodyOf(env: Env, input: Input, key: string): string
    requires Accepts(env, input, key)
  {
    NoteOf(input.checkpoint).value.body
  }

  function EntryOf(env: Env, input: Input): string {
    if env.decode64(input.entryBody).Some? then env.decode64(input.entryBody).value else ""
  }

  ghost function StampOf(env: Env, input: Input, key: string): Stamp
    requires Accepts(env, input, key)
  {
    Stamp(input.entryBody, input.integratedTime, env.lower(LogIdOf(env, env.der(key).value)),
        ParseInt64(env.trim(input.logEntryId)).value)
  }

  /** The texts hashed while checking an input. */
  ghost function InputTexts(env: Env, input: Input, key: string): set<string>
    requires Accepts(env, input, key)
  {
    {BodyOf(env, input, key), TextOf(StampOf(env, input, key)), LeafText(EntryOf(env, input))}
    + WalkTexts(env.hash, env.hash(LeafText(EntryOf(env, input))), input.logIndex, input.treeSize - 1,
        Digests32(input.inclusionPath).value)
  }

  /** The texts a log hashes for the tree of its first n entries. */
  ghost function LogTexts(env: Env, L: seq<string>, n: nat): set<string>
    requires n <= |L|
  {
    (set i | 0 <= i < n :: LeafText(L[i])) + if n == 0 then {}
        else TreeTexts(env.hash, Build(LeafHashes(env.hash, L[..n])))
  }

  lemma {:induction false} SignedByLog(env: Env, key: string, L: seq<string>, R: set<Stamp>, T: set<string>,
      text: string, sig: string, S: set<string>)
    requires HonestLog(env, key, L, R, T) && Verifies(env, key, text, sig)
    requires T <= S && text in S && InjectiveOn(env.hash, S)
    ensures IsCheckpoint(env, text, L) || IsStamp(text, R)
  {
    hide IsCheckpoint, IsStamp;
    assert SignedText(env, env.hash(text), T);
    var t :| t in T && env.hash(t) == env.hash(text);
    assert SameDigest(env.hash, t, text);
  }

  lemma {:induction false} RootIsDigest(env: Env, hs: seq<string>)
    requires Sane(env) && hs != [] && forall h :: h in hs ==> |h| == 32 && Bytes(h)
    ensures |TreeHash(env.hash, hs)| == 32 && Bytes(TreeHash(env.hash, hs))
  {
    if |hs| == 1 { assert hs[0] in hs; }
  }

  lemma {:induction false} LeavesAreDigests(env: Env, entries: seq<string>)
    requires Sane(env)
    ensures forall h :: h in LeafHashes(env.hash, entries) ==> |h| == 32 && Bytes(h)
    ensures All32(LeafHashes(env.hash, entries))
  {
    var hs := LeafHashes(env.hash, entries);
    forall i | 0 <= i < |hs| ensures |hs[i]| == 32 && Bytes(hs[i]) { assert hs[i] == env.hash(LeafText(entries[i])); }
  }

  /**
   The signed body of an accepted checkpoint is the checkpoint of a prefix of the log, and that prefix has the
   claimed size and root.
   */
  lemma {:induction false} CheckpointSound(env: Env, key: string, L: seq<string>, R: set<Stamp>, T: set<string>,
      input: Input, S: set<string>)
    requires Sane(env) && HonestLog(env, key, L, R, T) && Accepts(env, input, key)
    requires T <= S && InputTexts(env, input, key) <= S && InjectiveOn(env.hash, S)
    ensures 0 < input.treeSize <= |L| && Digest32(input.rootHashHex) == Some(RootOf(env, L, input.treeSize))
  {
    var body := BodyOf(env, input, key);
    assert BodyStates(env, body, input.rootHashHex, input.treeSize) && Digest32(input.rootHashHex).Some?;
    assert exists sig :: Verifies(env, key, body, sig);
    hide *;
    var sig :| Verifies(env, key, body, sig);
    BodyIn(env, input, key);
    SignedByLog(env, key, L, R, T, body, sig, S);
    StampHasNoSize(env, body, R, input.rootHashHex, input.treeSize);
    CheckpointRead(env, body, L, input.rootHashHex, input.treeSize);
  }

  lemma {:induction false} BodyIn(env: Env, input: Input, key: string)
    requires Accepts(env, input, key)
    ensures BodyOf(env, input, key) in InputTexts(env, input, key)
  {
  }

  lemma {:induction false} StampHasNoSize(env: Env, t: string, R: set<Stamp>, rootHex: string, size: int)
    requires BodyStates(env, t, rootHex, size)
    ensures !IsStamp(t, R)
  {
    hide TextOf;
    forall s ensures t != TextOf(s) {
      StampOneLine(s);
      SplitFree(TextOf(s), '\n');
    }
  }

  lemma {:induction false} CheckpointRead(env: Env, t: string, L: seq<string>, rootHex: string, size: int)
    requires Sane(env) && IsCheckpoint(env, t, L) && BodyStates(env, t, rootHex, size) && Digest32(rootHex).Some?
    ensures 0 < size <= |L| && Digest32(rootHex) == Some(RootOf(env, L, size))
  {
    hide BodyStates, CheckpointBody, Digest32, TreeHash, LeafHashes;
    var origin, n: nat, extra :| StatesTree(env, t, L, origin, n, extra);
    LeavesAreDigests(env, L[..n]);
    RootIsDigest(env, LeafHashes(env.hash, L[..n]));
    BodyReads(env, origin, n, RootOf(env, L, n), extra, rootHex, size);
  }

  /**
   If the log key signs only checkpoints stating the size and tree hash of a real log, and stamps of what it
   recorded, an accepted anchor's entry is the log's own entry at that index, it names the claimed leaf hash, the
   path is that entry's audit path, and the time and global index are what the log recorded.
   */
  lemma {:induction false} AnchorSound(env: Env, key: string, L: seq<string>, R: set<Stamp>, T: set<string>,
      input: Input, S: set<string>)
    requires Sane(env) && HonestLog(env, key, L, R, T) && Accepts(env, input, key)
    requires T <= S && InputTexts(env, input, key) <= S && InjectiveOn(env.hash, S)
    requires input.treeSize <= |L| ==> LogTexts(env, L, input.treeSize) <= S
    ensures input.logIndex < input.treeSize <= |L|
    ensures env.decode64(input.entryBody) == Some(L[input.logIndex])
        && NamesLeaf(env, L[input.logIndex], input.leafHashHex)
    ensures exists value :: (env.readEntry(L[input.logIndex]) == Some(EntryHead("hashedrekord", "sha256", value))
        && value != "" && env.fold(value) == env.fold(input.leafHashHex))
    ensures Digests32(input.inclusionPath) ==
        Some(AuditPath(env.hash, input.logIndex, LeafHashes(env.hash, L[..input.treeSize])))
    ensures StampOf(env, input, key) in R
  {
    LeafNamed(env, EntryOf(env, input), input.leafHashHex);
    assert 0 <= input.logIndex < input.treeSize && env.decode64(input.entryBody).Some? && Included(env, input);
    assert NamesLeaf(env, EntryOf(env, input), input.leafHashHex) && Digests32(input.inclusionPath).Some?;
    assert WalkTexts(env.hash, env.hash(LeafText(EntryOf(env, input))), input.logIndex, input.treeSize - 1,
        Digests32(input.inclusionPath).value) <= S;
    assert LeafText(EntryOf(env, input)) in S;
    CheckpointSound(env, key, L, R, T, input, S);
    EntryIsLogged(env, L, input, S);
    StampSound(env, key, L, R, T, input, S);
  }

  /** An entry names a leaf when its own value, under SHA-256, is that leaf up to case. */
  lemma {:induction false} LeafNamed(env: Env, entry: string, leafHashHex: string)
    requires NamesLeaf(env, entry, leafHashHex)
    ensures exists value :: (env.readEntry(entry) == Some(EntryHead("hashedrekord", "sha256", value))
        && value != "" && env.fold(value) == env.fold(leafHashHex))
  {
    var value := env.readEntry(entry).value.value;
    assert env.readEntry(entry) == Some(EntryHead("hashedrekord", "sha256", value));
  }

  /** One entry, one leaf: an accepted anchor cannot be moved to a record with another leaf. */
  lemma {:induction false} EntryFixesLeaf(env: Env, a: Input, keyA: string, b: Input, keyB: string)
    requires Accepts(env, a, keyA) && Accepts(env, b, keyB) && EntryOf(env, a) == EntryOf(env, b)
    ensures env.fold(a.leafHashHex) == env.fold(b.leafHashHex)
  {
    hide Included, CheckpointHolds, TimestampHolds, LogIdOf, NamesLeaf;
    LeafNamed(env, EntryOf(env, a), a.leafHashHex);
    LeafNamed(env, EntryOf(env, b), b.leafHashHex);
  }

  /** Letter case of the leaf hash and of the log id does not matter. */
  lemma {:induction false} CaseIgnored(env: Env, input: Input, leaf: string, logId: string, key: string)
    requires env.fold(leaf) == env.fold(input.leafHashHex) && (leaf == "" <==> input.leafHashHex == "")
    requires env.fold(logId) == env.fold(input.logId) && (logId == "" <==> input.logId == "")
    ensures Accepts(env, input.(leafHashHex := leaf, logId := logId), key) <==> Accepts(env, input, key)
  {
    hide CheckpointHolds, LogIdOf, Digest32, Digests32, Climb, StampText;
  }

  /** Nor do blanks around the size and the root in a checkpoint's body. */
  lemma {:induction false} BlanksIgnored(env: Env, origin: string, a: string, b: string, c: string, d: string,
      extra: string, rootHex: string, size: int)
    requires '\n' !in origin && '\n' !in a && '\n' !in b && '\n' !in c && '\n' !in d
    requires env.trim(a) == env.trim(c) && env.trim(b) == env.trim(d)
    ensures BodyStates(env, origin + "\n" + (a + "\n" + (b + "\n" + extra)), rootHex, size) <==>
            BodyStates(env, origin + "\n" + (c + "\n" + (d + "\n" + extra)), rootHex, size)
  {
    hide Split, ParseInt64, HexEncode;
    ThreeLines(origin, a, b, extra);
    ThreeLines(origin, c, d, extra);
  }

  lemma {:induction false} ThreeLines(origin: string, a: string, b: string, extra: string)
    requires '\n' !in origin && '\n' !in a && '\n' !in b
    ensures Split(origin + "\n" + (a + "\n" + (b + "\n" + extra)), '\n') == [origin, a, b] + Split(extra, '\n')
  {
    hide Split;
    SplitPrefix(origin, a + "\n" + (b + "\n" + extra), '\n');
    SplitPrefix(a, b + "\n" + extra, '\n');
    SplitPrefix(b, extra, '\n');
  }

  /** An accepted input: nothing is empty, its index is inside its tree, and it names the key's own log. */
  lemma {:induction false} AcceptedSupplies(env: Env, input: Input, key: string)
    requires Accepts(env, input, key)
    ensures input.leafHashHex != "" && input.entryBody != "" && input.rootHashHex != "" && input.checkpoint != ""
        && input.logId != "" && input.signedEntryTimestamp != ""
    ensures 0 <= input.logIndex < input.treeSize && |Digest32(input.rootHashHex).value| == 32
    ensures env.der(key).Some? && env.fold(input.logId) == env.fold(HexEncode(env.hash(env.der(key).value)))
    ensures exists index :: ParseInt64(env.trim(input.logEntryId)) == Some(index) && index >= 0
  {
    assert ParseInt64(env.trim(input.logEntryId)).value >= 0;
  }

  /** What is signed with an accepted timestamp: a JSON object of the entry, its time, the key's log and the index. */
  lemma {:induction false} StampSigned(env: Env, input: Input, key: string)
    requires Accepts(env, input, key)
    ensures exists text, sig, index: nat :: StampedAs(env, input, key, text, sig, index)
  {
    hide Included, CheckpointHolds, NamesLeaf, StampText, JsonReader.ReadValue;
    var s := StampOf(env, input, key);
    StampIsJson(s);
    assert StampedAs(env, input, key, TextOf(s), env.decode64(input.signedEntryTimestamp).value, s.index);
  }

  ghost predicate StampedAs(env: Env, input: Input, key: string, text: string, sig: string, index: nat) {
    && env.der(key).Some? && env.decode64(input.signedEntryTimestamp) == Some(sig)
    && ParseInt64(env.trim(input.logEntryId)) == Some(index)
    && env.verifies(key, env.hash(text), sig)
    && JsonReader.ReadValue(text) == Some(JsonReader.Got(Json.Obj(map["body" := Json.Str(input.entryBody),
        "integratedTime" := Json.Num(input.integratedTime),
        "logID" := Json.Str(env.lower(HexEncode(env.hash(env.der(key).value)))), "logIndex" := Json.Num(index)]), ""))
  }

  /** A signature line carrying the first four bytes of the key's digest and a signature by the key. */
  ghost predicate SignsBody(env: Env, key: string, der: string, line: string, body: string) {
    |env.hash(der)| >= 4 && exists name, raw {:trigger PREFIX + name + " " + raw} ::
      && line == PREFIX + name + " " + raw && ' ' !in name
      && env.decode64(env.trim(raw)).Some? && |env.decode64(env.trim(raw)).value| >= 4
      && env.decode64(env.trim(raw)).value[..4] == env.hash(der)[..4]
      && env.verifies(key, env.hash(body), env.decode64(env.trim(raw)).value[4..])
  }

  /** An accepted checkpoint's body is signed by the log key on one of its lines. */
  lemma {:induction false} CheckpointSigned(env: Env, checkpoint: string, rootHashHex: string, size: int, key: string)
    requires Sane(env) && CheckpointHolds(env, checkpoint, rootHashHex, size, key)
    ensures var note := NoteOf(checkpoint).value;
            exists line :: line in note.signatures && SignsBody(env, key, env.der(key).value, line, note.body)
  {
    hide NoteOf, BodyStates, FirstSignature, LineSignature;
    var note, der := NoteOf(checkpoint).value, env.der(key).value;
    assert |env.hash(der)| == 32;
    var i := FirstLine(env, note.signatures, KeyHint(env, der));
    LineSigns(env, key, der, note.signatures[i], note.body);
  }

  lemma {:induction false} FirstLine(env: Env, lines: seq<string>, hint: string) returns (i: nat)
    requires FirstSignature(env, lines, hint).Some?
    ensures i < |lines| && LineSignature(env, lines[i], hint) == FirstSignature(env, lines, hint)
  {
    if LineSignature(env, lines[0], hint).Some? {
      i := 0;
    } else {
      var j := FirstLine(env, lines[1..], hint);
      i := j + 1;
    }
  }

  lemma {:induction false} LineSigns(env: Env, key: string, der: string, line: string, body: string)
    requires |env.hash(der)| == 32 && LineSignature(env, line, KeyHint(env, der)).Some?
    requires Verifies(env, key, body, LineSignature(env, line, KeyHint(env, der)).value)
    ensures SignsBody(env, key, der, line, body)
  {
    var rest := line[|PREFIX|..];
    var space := IndexOf(rest, ' ').value;
    var name, raw := rest[..space], rest[space + 1..];
    BeforeFirst(rest, ' ');
    assert rest == name + " " + raw;
    assert line == PREFIX + name + " " + raw;
  }

  lemma {:induction false} BeforeFirst(s: string, c: char)
    requires IndexOf(s, c).Some?
    ensures c !in s[..IndexOf(s, c).value]
  {
    if s[0] != c {
      BeforeFirst(s[1..], c);
      assert s[..IndexOf(s, c).value] == [s[0]] + s[1..][..IndexOf(s[1..], c).value];
    }
  }

  /** The log id begins with the key hint: both are read off one digest of the key. */
  lemma {:induction false} HintOpensLogId(env: Env, der: string)
    requires Sane(env)
    ensures HexDecode(LogIdOf(env, der)) == Some(env.hash(der)) && KeyHint(env, der) == env.hash(der)[..4]
  {
    hide HexDecode, HexEncode;
    assert |env.hash(der)| == 32 && Bytes(env.hash(der));
    HexDecodesBack(env.hash(der));
  }

  lemma {:induction false} EntryIsLogged(env: Env, L: seq<string>, input: Input, S: set<string>)
    requires Sane(env) && Included(env, input) && 0 < input.treeSize <= |L|
        && Digest32(input.rootHashHex) == Some(RootOf(env, L, input.treeSize))
    requires LogTexts(env, L, input.treeSize) <= S && LeafText(EntryOf(env, input)) in S && InjectiveOn(env.hash, S)
    requires WalkTexts(env.hash, env.hash(LeafText(EntryOf(env, input))), input.logIndex, input.treeSize - 1,
        Digests32(input.inclusionPath).value) <= S
    ensures EntryOf(env, input) == L[input.logIndex]
    ensures Digests32(input.inclusionPath).value == AuditPath(env.hash, input.logIndex,
        LeafHashes(env.hash, L[..input.treeSize]))
  {
    hide Climb, TreeHash, AuditPath, TreeTexts, WalkTexts, Build, Digest32, Digests32;
    var hs, h := LeafHashes(env.hash, L[..input.treeSize]), env.hash(LeafText(EntryOf(env, input)));
    LeavesAreDigests(env, L[..input.treeSize]);
    PathOf32(input.inclusionPath);
    InclusionSound(env.hash, h, input.logIndex, hs, Digests32(input.inclusionPath).value, S);
    assert hs[input.logIndex] == env.hash(LeafText(L[input.logIndex]));
    assert SameDigest(env.hash, LeafText(EntryOf(env, input)), LeafText(L[input.logIndex]));
    assert LeafText(EntryOf(env, input))[1..] == EntryOf(env, input)
        && LeafText(L[input.logIndex])[1..] == L[input.logIndex];
  }

  lemma {:induction false} PathOf32(path: seq<string>)
    requires Digests32(path).Some?
    ensures All32(Digests32(path).value)
  {
    if path != [] { PathOf32(path[1..]); }
  }

  lemma {:induction false} StampSound(env: Env, key: string, L: seq<string>, R: set<Stamp>, T: set<string>,
      input: Input, S: set<string>)
    requires HonestLog(env, key, L, R, T) && Accepts(env, input, key)
    requires T <= S && InputTexts(env, input, key) <= S && InjectiveOn(env.hash, S)
    ensures StampOf(env, input, key) in R
  {
    var stamp := StampOf(env, input, key);
    var sig := env.decode64(input.signedEntryTimestamp).value;
    assert Verifies(env, key, TextOf(stamp), sig) && TextOf(stamp) in S;
    hide *;
    SignedByLog(env, key, L, R, T, TextOf(stamp), sig, S);
    StampIsNoCheckpoint(env, stamp, L);
    StampRecorded(stamp, R);
  }

  lemma {:induction false} StampIsNoCheckpoint(env: Env, s: Stamp, L: seq<string>)
    ensures !IsCheckpoint(env, TextOf(s), L)
  {
    hide TextOf;
    StampOneLine(s);
    forall origin, n: nat, extra ensures !StatesTree(env, TextOf(s), L, origin, n, extra) {
      if 0 < n <= |L| {
        assert CheckpointBody(env, origin, n, RootOf(env, L, n), extra)[|origin|] == '\n';
      }
    }
  }

  lemma {:induction false} StampRecorded(s: Stamp, R: set<Stamp>)
    requires IsStamp(TextOf(s), R)
    ensures s in R
  {
    hide TextOf;
    var r :| r in R && TextOf(s) == TextOf(r);
    StampUnique(s, r);
  }

  // ----- What a log issues -----

  /** A line of a note: a name, and in base64 a key hint and a signature. */
  datatype Cosignature = Cosignature(name: string, hint: string, sig: string)

  function LineText(env: Env, c: Cosignature): string { PREFIX + (c.name + " " + env.encode64(c.hint + c.sig)) }

  function LineTexts(env: Env, cs: seq<Cosignature>): seq<string> {
    if cs == [] then [] else [LineText(env, cs[0])] + LineTexts(env, cs[1..])
  }

  ghost predicate LineFree(s: string) { s != "" && '\n' !in s && '\r' !in s }

  ghost predicate Cosigned(cs: seq<Cosignature>) {
    forall c :: c in cs ==> |c.hint| == 4 && ' ' !in c.name && '\n' !in c.name && '\r' !in c.name
  }

  /** Lines as a note's body holds them. */
  function Terminated(lines: seq<string>): string {
    if lines == [] then "" else lines[0] + "\n" + Terminated(lines[1..])
  }

  function HexAll(path: seq<string>): seq<string> {
    if path == [] then [] else [HexEncode(path[0])] + HexAll(path[1..])
  }

  /**
   What a log puts into one proof beside its tree: the note's lines, which of them is its own, and the entry's
   stamp.
   */
  datatype Issue = Issue(origin: string, extensions: seq<string>, lines: seq<Cosignature>, own: nat, index: nat,
      stampSig: string)

  ghost function IssuedBody(env: Env, L: seq<string>, n: nat, w: Issue): string
    requires 0 < n <= |L|
  {
    CheckpointBody(env, w.origin, n, RootOf(env, L, n), Terminated(w.extensions))
  }

  /** The stamp is the log's signature over the entry as it recorded it, and the index is printed in decimal. */
  ghost predicate StampIssued(env: Env, key: string, der: string, input: Input, w: Issue) {
    && w.index < 0x8000_0000_0000_0000 && input.logEntryId == PrintNat(w.index)
    && w.stampSig != "" && input.signedEntryTimestamp == env.encode64(w.stampSig)
    && Verifies(env, key,
        TextOf(Stamp(input.entryBody, input.integratedTime, env.lower(LogIdOf(env, der)), w.index)), w.stampSig)
  }

  /** The checkpoint is a note over the tree's body; the log's line is the first with its hint and signs that body. */
  ghost predicate CheckpointIssued(env: Env, key: string, der: string, L: seq<string>, input: Input, w: Issue)
    requires 0 < input.treeSize <= |L|
  {
    && LineFree(w.origin) && (forall e :: e in w.extensions ==> LineFree(e)) && Cosigned(w.lines) && w.own < |w.lines|
    && (forall k :: 0 <= k < w.own ==> w.lines[k].hint != KeyHint(env, der)) && w.lines[w.own].hint == KeyHint(env, der)
    && input.checkpoint == NoteText(Note(IssuedBody(env, L, input.treeSize, w), LineTexts(env, w.lines)))
    && Verifies(env, key, IssuedBody(env, L, input.treeSize, w), w.lines[w.own].sig)
  }

  /** A proof as a log with this key issues it for one of its entries. */
  ghost predicate Issued(env: Env, key: string, L: seq<string>, input: Input, w: Issue) {
    && 0 <= input.logIndex < input.treeSize <= |L| && input.treeSize < 0x8000_0000_0000_0000
    && L[input.logIndex] != "" && input.entryBody == env.encode64(L[input.logIndex])
    && input.leafHashHex != ""
    && env.readEntry(L[input.logIndex]) == Some(EntryHead("hashedrekord", "sha256", input.leafHashHex))
    && input.rootHashHex == HexEncode(RootOf(env, L, input.treeSize))
    && input.inclusionPath == HexAll(AuditPath(env.hash, input.logIndex, LeafHashes(env.hash, L[..input.treeSize])))
    && env.der(key).Some? && input.logId == LogIdOf(env, env.der(key).value)
    && StampIssued(env, key, env.der(key).value, input, w)
    && CheckpointIssued(env, key, env.der(key).value, L, input, w)
  }

  // ----- Completeness: reading undoes writing -----

  lemma {:induction false} HexLength(b: string)
    ensures |HexEncode(b)| == |b| + |b|
  {
    if b != "" { HexLength(b[1..]); }
  }

  lemma {:induction false} DigestReads(b: string)
    requires |b| == 32 && Bytes(b)
    ensures Digest32(HexEncode(b)) == Some(b) && HexEncode(b) != ""
  {
    hide HexEncode, HexDecode, Bytes;
    HexDecodesBack(b);
    HexLength(b);
  }

  ghost predicate AllDigests(hs: seq<string>) { forall h :: h in hs ==> |h| == 32 && Bytes(h) }

  lemma {:induction false} PathReads(path: seq<string>)
    requires AllDigests(path)
    ensures Digests32(HexAll(path)) == Some(path)
  {
    hide HexEncode, Digest32, AllDigests, Digests32, HexAll;
    if path == [] {
      NoPath();
    } else {
      AllDigestsHead(path);
      DigestReads(path[0]);
      PathReads(path[1..]);
      PathHead(path, HexEncode(path[0]));
      assert path == [path[0]] + path[1..];
    }
  }

  lemma {:induction false} NoPath()
    ensures Digests32(HexAll([])) == Some([])
  {
  }

  lemma {:induction false} AllDigestsHead(path: seq<string>)
    requires AllDigests(path) && path != []
    ensures |path[0]| == 32 && Bytes(path[0]) && AllDigests(path[1..])
  {
    assert path[0] in path && forall h :: h in path[1..] ==> h in path;
  }

  lemma {:induction false} PathHead(path: seq<string>, first: string)
    requires path != [] && first == HexEncode(path[0]) && Digest32(first).Some? && Digests32(HexAll(path[1..])).Some?
    ensures Digests32(HexAll(path)) == Some([Digest32(first).value] + Digests32(HexAll(path[1..])).value)
  {
    hide HexEncode, Digest32;
    assert HexAll(path)[1..] == HexAll(path[1..]);
  }

  lemma {:induction false} PathIsDigests(env: Env, i: nat, hs: seq<string>)
    requires Sane(env) && i < |hs| && AllDigests(hs)
    ensures AllDigests(AuditPath(env.hash, i, hs))
    decreases |hs|
  {
    hide TreeHash, Bytes, SplitPoint;
    if |hs| > 1 {
      var k := SplitPoint(|hs|);
      assert forall h :: h in hs[..k] || h in hs[k..] ==> h in hs;
      RootIsDigest(env, hs[..k]);
      RootIsDigest(env, hs[k..]);
      if i < k { PathIsDigests(env, i, hs[..k]); } else { PathIsDigests(env, i - k, hs[k..]); }
    }
  }

  lemma {:induction false} IndexOfFirst(x: string, rest: string, c: char)
    requires c !in x
    ensures IndexOf(x + [c] + rest, c) == Some(|x|)
  {
    var s := x + [c] + rest;
    if x != "" {
      assert s[1..] == x[1..] + [c] + rest;
      IndexOfFirst(x[1..], rest, c);
    }
  }

  /** A signature line gives its signature to the key of its hint, and to no other. */
  lemma {:induction false} LineReads(env: Env, c: Cosignature, hint: string)
    requires Sane(env) && |c.hint| == 4 && |hint| == 4 && ' ' !in c.name
    ensures LineSignature(env, LineText(env, c), hint) == if c.hint == hint then Some(c.sig) else None
  {
    hide Graphic, IndexOf;
    var raw := c.hint + c.sig;
    var blob := env.encode64(raw);
    assert Graphic(blob) && env.trim(blob) == blob && env.decode64(blob) == Some(raw);
    var rest := c.name + " " + blob;
    IndexOfFirst(c.name, blob, ' ');
    assert LineText(env, c)[..|PREFIX|] == PREFIX && LineText(env, c)[|PREFIX|..] == rest
        && rest[|c.name| + 1..] == blob;
    assert raw[..4] == c.hint && raw[4..] == c.sig;
  }

  lemma {:induction false} LineIsPlain(env: Env, c: Cosignature)
    requires Sane(env) && '\n' !in c.name && '\r' !in c.name
    ensures PlainLine(LineText(env, c))
  {
    assert Graphic(env.encode64(c.hint + c.sig));
    assert LineText(env, c)[..|PREFIX|] == PREFIX;
  }

  lemma {:induction false} LinesRead(env: Env, cs: seq<Cosignature>, own: nat, hint: string)
    requires Sane(env) && Cosigned(cs) && |hint| == 4 && own < |cs|
    requires (forall k :: 0 <= k < own ==> cs[k].hint != hint) && cs[own].hint == hint
    ensures FirstSignature(env, LineTexts(env, cs), hint) == Some(cs[own].sig)
  {
    hide LineSignature, LineText, Sane;
    assert cs[0] in cs && forall c :: c in cs[1..] ==> c in cs;
    LineReads(env, cs[0], hint);
    assert LineTexts(env, cs)[1..] == LineTexts(env, cs[1..]);
    if own > 0 {
      assert forall k :: 0 <= k < own - 1 ==> cs[1..][k] == cs[k + 1];
      LinesRead(env, cs[1..], own - 1, hint);
    }
  }

  lemma {:induction false} LinesArePlain(env: Env, cs: seq<Cosignature>)
    requires Sane(env) && Cosigned(cs)
    ensures |LineTexts(env, cs)| == |cs| && forall l :: l in LineTexts(env, cs) ==> PlainLine(l)
  {
    hide LineText, Sane, PlainLine;
    if cs != [] {
      assert cs[0] in cs && forall c :: c in cs[1..] ==> c in cs;
      LineIsPlain(env, cs[0]);
      LinesArePlain(env, cs[1..]);
    }
  }

  ghost predicate NoBlank(s: string) { forall k :: 0 <= k < |s| - 1 ==> !(s[k] == '\n' && s[k + 1] == '\n') }

  /** Non-empty lines, each ended, make a body without a blank line. */
  lemma {:induction false} TerminatedPlain(lines: seq<string>)
    requires forall l :: l in lines ==> LineFree(l)
    ensures NoBlank(Terminated(lines)) && '\r' !in Terminated(lines)
    ensures lines != [] ==>
        Terminated(lines) != "" && Terminated(lines)[0] != '\n' && Terminated(lines)[|Terminated(lines)| - 1] == '\n'
  {
    if lines != [] {
      var l, rest := lines[0], Terminated(lines[1..]);
      assert l in lines && l[0] in l && forall x :: x in lines[1..] ==> x in lines;
      TerminatedPlain(lines[1..]);
      NoBlankMore(l, rest);
    }
  }

  lemma {:induction false} NoBlankMore(l: string, rest: string)
    requires '\n' !in l && NoBlank(rest) && (rest != "" ==> rest[0] != '\n')
    ensures NoBlank(l + "\n" + rest)
  {
    var s := l + "\n" + rest;
    forall k | 0 <= k < |s| - 1 ensures !(s[k] == '\n' && s[k + 1] == '\n') {
      if k < |l| { assert s[k] == l[k] && l[k] in l; }
      if k == |l| { assert s[k + 1] == rest[0]; }
      if k > |l| { assert s[k] == rest[k - |l| - 1] && s[k + 1] == rest[k - |l|]; }
    }
  }

  lemma {:induction false} TerminatedHead(l: string, rest: seq<string>)
    ensures Terminated([l] + rest) == l + "\n" + Terminated(rest)
  {
    assert ([l] + rest)[1..] == rest;
  }

  lemma {:induction false} BodyIsPlain(env: Env, origin: string, n: nat, root: string, extensions: seq<string>)
    requires Sane(env) && LineFree(origin) && root != "" && forall e :: e in extensions ==> LineFree(e)
    ensures PlainBody(CheckpointBody(env, origin, n, root, Terminated(extensions)))
  {
    hide PrintNat, Sane, Terminated;
    NumberLine(n);
    RootLine(env, root);
    var lines := [origin, PrintNat(n), env.encode64(root)] + extensions;
    TerminatedHead(origin, [PrintNat(n), env.encode64(root)] + extensions);
    TerminatedHead(PrintNat(n), [env.encode64(root)] + extensions);
    TerminatedHead(env.encode64(root), extensions);
    assert lines == [origin] + ([PrintNat(n)] + ([env.encode64(root)] + extensions));
    assert [PrintNat(n), env.encode64(root)] + extensions == [PrintNat(n)] + ([env.encode64(root)] + extensions);
    TerminatedPlain(lines);
  }

  lemma {:induction false} NumberLine(n: nat)
    ensures LineFree(PrintNat(n))
  {
    PrintThenRead(n);
    DigitsGraphic(n);
  }

  lemma {:induction false} RootLine(env: Env, root: string)
    requires Sane(env) && root != ""
    ensures LineFree(env.encode64(root))
  {
    assert Graphic(env.encode64(root));
  }

  lemma {:induction false} StampReads(env: Env, key: string, der: string, input: Input, w: Issue)
    requires Sane(env) && StampIssued(env, key, der, input, w)
    ensures input.signedEntryTimestamp != "" && TimestampHolds(env, input, LogIdOf(env, der), key)
  {
    hide PrintNat, StampText, LogIdOf, Graphic;
    DigitsGraphic(w.index);
    assert env.trim(PrintNat(w.index)) == PrintNat(w.index);
    ParsePrinted(w.index);
    assert env.encode64(w.stampSig) != "";
  }

  lemma {:induction false} HintLength(env: Env, der: string)
    requires Sane(env)
    ensures |KeyHint(env, der)| == 4
  {
    assert |env.hash(der)| == 32;
  }

  lemma {:induction false} CheckpointReads(env: Env, key: string, L: seq<string>, input: Input, w: Issue)
    requires Sane(env) && env.der(key).Some? && 0 < input.treeSize <= |L| && input.treeSize < 0x8000_0000_0000_0000
    requires input.rootHashHex == HexEncode(RootOf(env, L, input.treeSize))
        && CheckpointIssued(env, key, env.der(key).value, L, input, w)
    ensures CheckpointHolds(env, input.checkpoint, input.rootHashHex, input.treeSize, key) && input.checkpoint != ""
    ensures Digest32(input.rootHashHex) == Some(RootOf(env, L, input.treeSize)) && input.rootHashHex != ""
  {
    hide TreeHash, Digest32, CheckpointBody, NoteOf, BodyStates, FirstSignature, PlainBody, PlainLine, Verifies,
        KeyHint, LeafHashes, HexEncode, LineTexts, Terminated, Cosigned, Bytes, Sane, NoteText;
    var n, root := input.treeSize, RootOf(env, L, input.treeSize);
    var note := Note(IssuedBody(env, L, n, w), LineTexts(env, w.lines));
    LeavesAreDigests(env, L[..n]);
    RootIsDigest(env, LeafHashes(env.hash, L[..n]));
    DigestReads(root);
    BodyReads(env, w.origin, n, root, Terminated(w.extensions), input.rootHashHex, n);
    BodyIsPlain(env, w.origin, n, root, w.extensions);
    LinesArePlain(env, w.lines);
    NoteRoundTrip(note);
    HintLength(env, env.der(key).value);
    LinesRead(env, w.lines, w.own, KeyHint(env, env.der(key).value));
    NoteNotEmpty(note);
  }

  lemma {:induction false} NoteNotEmpty(note: Note)
    ensures NoteText(note) != ""
  {
  }

  lemma {:induction false} IncludedReads(env: Env, L: seq<string>, input: Input)
    requires Sane(env) && 0 <= input.logIndex < input.treeSize <= |L|
        && env.decode64(input.entryBody) == Some(L[input.logIndex])
    requires Digest32(input.rootHashHex) == Some(RootOf(env, L, input.treeSize))
    requires input.inclusionPath ==
        HexAll(AuditPath(env.hash, input.logIndex, LeafHashes(env.hash, L[..input.treeSize])))
    ensures Included(env, input)
  {
    hide Climb, TreeHash, AuditPath, Digest32, Digests32, LeafHashes, HexAll, Bytes, Sane;
    var hs := LeafHashes(env.hash, L[..input.treeSize]);
    LeavesAreDigests(env, L[..input.treeSize]);
    PathIsDigests(env, input.logIndex, hs);
    PathReads(AuditPath(env.hash, input.logIndex, hs));
    InclusionComplete(env.hash, input.logIndex, hs);
    HashAt(env, L, input.treeSize, input.logIndex);
  }

  /** Every proof a log issues for one of its entries is accepted. */
  lemma {:induction false} AnchorComplete(env: Env, key: string, L: seq<string>, input: Input, w: Issue)
    requires Sane(env) && Issued(env, key, L, input, w)
    ensures Accepts(env, input, key)
  {
    hide Climb, AuditPath, RootOf, CheckpointIssued, CheckpointHolds, Included, StampIssued, TimestampHolds,
        HexEncode, LeafHashes, Bytes, Graphic, HexAll;
    var der := env.der(key).value;
    assert env.decode64(input.entryBody) == Some(L[input.logIndex]) && input.entryBody != "";
    CheckpointReads(env, key, L, input, w);
    IncludedReads(env, L, input);
    StampReads(env, key, der, input, w);
    assert |env.hash(der)| == 32;
    HexLength(env.hash(der));
  }

  lemma {:induction false} HashAt(env: Env, L: seq<string>, n: nat, i: nat)
    requires i < n <= |L|
    ensures LeafHashes(env.hash, L[..n])[i] == env.hash(LeafText(L[i]))
  {
  }
}
