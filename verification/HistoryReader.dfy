/** Activation records read back out of the texts they are hashed, logged and signed as, and what acceptance says. */
module HistoryReader {
  import opened Text
  import opened Decimal
  import opened Activation
  import opened PolicyHistory
  import Job
  import JsonReader

  // ----- The hashed text -----

  /** One field: its length in decimal, a colon, and that many bytes. */
  function ReadField(s: string): (r: Option<JsonReader.Got<string>>)
    ensures r.Some? ==> |r.value.rest| < |s|
  {
    var n := JsonReader.DigitRun(s);
    if n == 0 || n == |s| || s[n] != ':' then None
    else
      var length := ReadNat(s[..n]);
      if |s| < n + 1 + length then None
      else Some(JsonReader.Got(s[n + 1..n + 1 + length], s[n + 1 + length..]))
  }

  function ReadFields(s: string): seq<string>
    decreases |s|
  {
    var r := ReadField(s);
    if r.None? then [] else [r.value.value] + ReadFields(r.value.rest)
  }

  ghost function ReadInt(s: string): int {
    if s != "" && s[0] == '-' then (if AllDigits(s[1..]) then 0 - ReadNat(s[1..]) else 0)
    else if AllDigits(s) then ReadNat(s) else 0
  }

  /** The fields by their places: nine, and four more when the record is signed. */
  ghost function ReadActivation(f: seq<string>): Option<Activation> {
    if |f| != 9 && |f| != 13 then None
    else
      Some(Activation(f[0], f[1], ReadInt(f[2]), f[3], f[4], f[5], f[6], f[7], f[8],
        if |f| == 13 then Some(Signature(f[9], f[10], f[11], f[12])) else None, "", None))
  }

  lemma {:induction false} FieldReads(f: string, rest: string)
    ensures ReadField(Field(f) + rest) == Some(JsonReader.Got(f, rest))
  {
    hide PrintNat, ReadNat, JsonReader.DigitRun;
    PrintThenRead(|f|);
    FieldSplit(f, rest);
    var x, tail := PrintNat(|f|), ":" + (f + rest);
    JsonReader.RunReads(x, tail);
    var s := x + tail;
    assert s[..|x|] == x && s[|x|..] == tail && s[|x|] == ':';
    assert s[|x| + 1..] == f + rest;
    assert s[|x| + 1..|x| + 1 + |f|] == f && s[|x| + 1 + |f|..] == rest;
  }

  lemma {:induction false} FieldsRead(fields: seq<string>)
    ensures ReadFields(Encoded(fields)) == fields
  {
    hide Field, ReadField;
    if fields == [] {
      NoField();
    } else {
      FieldReads(fields[0], Encoded(fields[1..]));
      FieldsRead(fields[1..]);
    }
  }

  lemma {:induction false} NoField()
    ensures ReadField("") == None
  {
  }

  lemma {:induction false} IntReads(n: int)
    ensures ReadInt(PrintInt(n)) == n
  {
    hide PrintNat, ReadNat;
    PrintShape(n);
    if n >= 0 { assert PrintInt(n)[0] in PrintInt(n); }
  }

  /** What a record's hash is taken over reads back as the record, but for the hash itself and the log entry. */
  lemma {:induction false} ActivationReads(a: Activation)
    ensures ReadActivation(ReadFields(Preimage(a))) == Some(Hashed(a))
  {
    hide Encoded, ReadFields, PrintInt, ReadInt;
    FieldsRead(Fields(a));
    IntReads(a.sequence);
  }

  // ----- The leaf and the signed text -----

  /** The public-log leaf of a valid record, field by field after its tag. */
  lemma {:induction false} LeafReads(a: Activation)
    requires Valid(a)
    ensures |LeafText(a)| > 27 && LeafText(a)[..27] == "verdifax.ledger.receipt.v3."
    ensures Split(LeafText(a)[27..], '.') ==
        ["policy_activation", a.chainId, a.activationHash, PrintInt(a.sequence), a.previousHash]
  {
    hide Split, Join, PrintInt, Valid;
    LeafTextTail(a);
    LeafFieldsFree(a);
    SplitJoin(LeafFields(a), '.');
    var tail := Join(LeafFields(a), '.');
    LeafNotEmpty(a);
    assert LeafText(a) == "verdifax.ledger.receipt.v3" + ("." + tail);
    assert "verdifax.ledger.receipt.v3" + ("." + tail) == "verdifax.ledger.receipt.v3." + tail;
    assert ("verdifax.ledger.receipt.v3." + tail)[27..] == tail;
  }

  lemma {:induction false} LeafNotEmpty(a: Activation)
    ensures Join(LeafFields(a), '.') != ""
  {
    hide PrintInt;
  }

  /** An approval as the customer's key signs it. */
  datatype Approval = Approval(chainId: string, documentHash: string, previousHash: string, signedAt: string,
      nonce: string)

  function ApprovalParts(x: Approval): seq<string> {
    ["verdifax.policy-activation.v1", x.chainId, x.documentHash, x.previousHash, x.signedAt, x.nonce]
  }

  function ApprovalText(x: Approval): string { Join(ApprovalParts(x), '\0') }

  function ApprovalOf(a: Activation, s: Signature): Approval {
    Approval(a.chainId, a.documentHash, a.previousHash, s.signedAt, s.nonce)
  }

  /** A 32-byte key whose owner has signed the texts of these approvals and nothing else. */
  ghost predicate SignsOnly(W: World, key: string, A: set<Approval>) {
    forall text, sig {:trigger W.verifies(key, text, sig)} :: W.verifies(key, text, sig) ==>
      exists x :: x in A && text == ApprovalText(x)
  }

  ghost predicate NulFree(x: Approval) { AllFree(ApprovalParts(x), '\0') }

  lemma {:induction false} ApprovalUnique(x: Approval, y: Approval)
    requires NulFree(x) && NulFree(y) && ApprovalText(x) == ApprovalText(y)
    ensures x == y
  {
    hide Join, AllFree;
    var f, g := ApprovalParts(x), ApprovalParts(y);
    JoinInjective(f, g, '\0');
    assert f[1] == g[1] && f[2] == g[2] && f[3] == g[3] && f[4] == g[4] && f[5] == g[5];
  }

  // ----- What acceptance says of each change -----

  ghost predicate HashLike(s: string) {
    |s| == 64 && forall c :: c in s ==> var n := c as int; 48 <= n <= 57 || 97 <= n <= 102
  }

  /** Shape, place, hash and time of a change. */
  ghost predicate ChangeSound(W: World, chain: seq<Activation>, i: nat)
    requires i < |chain|
  {
    var a := chain[i];
    && a.format == "verdifax.policy.activation.v1" && a.chainId != "" && '.' !in a.chainId
    && HashLike(a.previousHash) && HashLike(a.policyHash) && HashLike(a.documentHash) && HashLike(a.activationHash)
    && a.sequence == i + 1 && W.hash(Preimage(a)) == a.activationHash
    && (if i == 0 then forall c :: c in a.previousHash ==> c == '0' else a.previousHash == chain[i - 1].activationHash)
    && W.readTime(a.activatedAt).Some?
    && (if i == 0 then W.readTime(a.activatedAt).value >= 0
        else W.readTime(chain[i - 1].activatedAt).Some?
             && W.readTime(chain[i - 1].activatedAt).value <= W.readTime(a.activatedAt).value)
  }

  /** Its log entry: on the public log, of this kind, for this hash and this leaf, signed and dated acceptably. */
  ghost predicate ChangeLogged(W: World, a: Activation) {
    && a.anchor.Some? && a.anchor.value.backend == "rekor"
    && a.anchor.value.receiptKind == "policy_activation" && a.anchor.value.receiptHash == a.activationHash
    && W.fold(a.anchor.value.leafHashHex) == W.fold(W.hash(LeafText(a)))
    && W.onLog(a.anchor.value) && W.signerAccepted(a.anchor.value)
    && W.readTime(a.activatedAt).Some? && W.inWindow(a.anchor.value, W.readTime(a.activatedAt).value)
  }

  /** Its approval, when it has one: by a 32-byte key, in 64 bytes, over the approval's text. */
  ghost predicate ChangeApproved(W: World, a: Activation) {
    a.signature.Some? ==>
      exists key, sig ::
        && W.base64(a.signature.value.publicKey) == Some(key) && |key| == 32
        && W.base64(a.signature.value.signature) == Some(sig) && |sig| == 64
        && W.verifies(key, ApprovalText(ApprovalOf(a, a.signature.value)), sig)
  }

  /** A history is accepted exactly when it has changes and each is sound, logged and approved. */
  lemma {:induction false} AcceptedIff(W: World, chain: seq<Activation>)
    ensures Accepted(W, chain) <==>
            && chain != []
            && forall i :: 0 <= i < |chain| ==>
                 ChangeSound(W, chain, i) && ChangeLogged(W, chain[i]) && ChangeApproved(W, chain[i])
  {
    hide Links, ChangeSound, ChangeLogged, ChangeApproved;
    if Accepted(W, chain) {
      forall i | 0 <= i < |chain|
        ensures ChangeSound(W, chain, i) && ChangeLogged(W, chain[i]) && ChangeApproved(W, chain[i])
      {
        assert LinksAt(W, chain, i);
        if i > 0 { assert LinksAt(W, chain, i - 1); }
        LinksIff(W, chain, i);
      }
    } else if forall i :: 0 <= i < |chain| ==>
        ChangeSound(W, chain, i) && ChangeLogged(W, chain[i]) && ChangeApproved(W, chain[i]) {
      forall i | 0 <= i < |chain| ensures LinksAt(W, chain, i) {
        assert ChangeSound(W, chain, i);
        if i > 0 { assert ChangeSound(W, chain, i - 1); }
        LinksIff(W, chain, i);
      }
    }
  }

  /** One change beside the one before it. */
  lemma {:induction false} LinksIff(W: World, chain: seq<Activation>, i: nat)
    requires i < |chain| && (i > 0 ==> ChangeSound(W, chain, i - 1) || LinksAt(W, chain, i - 1))
    ensures LinksAt(W, chain, i) <==>
            ChangeSound(W, chain, i) && ChangeLogged(W, chain[i]) && ChangeApproved(W, chain[i])
  {
    hide Preimage, LeafText, SignatureHolds, ChangeApproved, Valid, EntryBinds, ChangeLogged;
    var a := chain[i];
    ValidIff(a);
    ApprovedIff(W, a);
    LoggedIff(W, a);
    ZerosIff(a.previousHash);
    if i > 0 { TimeReads(W, chain, i - 1); }
  }

  lemma {:induction false} TimeReads(W: World, chain: seq<Activation>, i: nat)
    requires i < |chain| && (ChangeSound(W, chain, i) || LinksAt(W, chain, i))
    ensures W.readTime(chain[i].activatedAt).Some?
  {
    hide Preimage, LeafText, SignatureHolds, Valid, EntryBinds;
  }

  lemma {:induction false} ValidIff(a: Activation)
    ensures Valid(a) <==>
            && a.format == "verdifax.policy.activation.v1" && a.chainId != "" && '.' !in a.chainId && a.sequence > 0
            && HashLike(a.previousHash) && HashLike(a.policyHash) && HashLike(a.documentHash)
            && HashLike(a.activationHash)
  {
    hide HashLike, Job.ValidHash;
    HashLikeIff(a.previousHash);
    HashLikeIff(a.policyHash);
    HashLikeIff(a.documentHash);
    HashLikeIff(a.activationHash);
  }

  lemma {:induction false} HashLikeIff(s: string)
    ensures Job.ValidHash(s) <==> HashLike(s)
  {
    forall c: char ensures Job.LowerHex(c) <==> 48 <= c as int <= 57 || 97 <= c as int <= 102 {}
  }

  lemma {:induction false} ZerosIff(s: string)
    ensures s == NO_PREVIOUS <==> |s| == 64 && forall c :: c in s ==> c == '0'
  {
    if |s| == 64 && forall c :: c in s ==> c == '0' {
      forall k | 0 <= k < 64 ensures s[k] == NO_PREVIOUS[k] { assert s[k] in s && NO_PREVIOUS[k] in NO_PREVIOUS; }
    }
  }

  lemma {:induction false} ApprovedIff(W: World, a: Activation)
    ensures SignatureHolds(W, a) <==> ChangeApproved(W, a)
  {
    hide SignedText, ApprovalText;
    if a.signature.Some? { SignedIsApproval(a, a.signature.value); }
  }

  lemma {:induction false} LoggedIff(W: World, a: Activation)
    ensures ChangeLogged(W, a) <==>
            && EntryBinds(W, a) && W.onLog(a.anchor.value) && W.signerAccepted(a.anchor.value)
            && W.readTime(a.activatedAt).Some? && W.inWindow(a.anchor.value, W.readTime(a.activatedAt).value)
  {
    hide LeafText;
  }

  /**
   A signed change was approved as it stands: if the key's owner signed only these approvals, this chain, this policy
   text and this place in the chain are those of one of them. So an approval cannot be carried anywhere else.
   */
  lemma {:induction false} ApprovalGenuine(W: World, chain: seq<Activation>, i: nat, key: string, A: set<Approval>)
    requires Accepted(W, chain) && i < |chain| && chain[i].signature.Some?
    requires W.base64(chain[i].signature.value.publicKey) == Some(key) && SignsOnly(W, key, A)
    requires NulFree(ApprovalOf(chain[i], chain[i].signature.value)) && forall x :: x in A ==> NulFree(x)
    ensures |key| == 32 && ApprovalOf(chain[i], chain[i].signature.value) in A
    ensures exists sig :: W.base64(chain[i].signature.value.signature) == Some(sig) && |sig| == 64
    ensures i > 0 ==> ApprovalOf(chain[i], chain[i].signature.value).previousHash == chain[i - 1].activationHash
  {
    hide Preimage, Valid, EntryBinds, NulFree, ApprovalText, Join;
    assert LinksAt(W, chain, i);
    var a, s := chain[i], chain[i].signature.value;
    SignedIsApproval(a, s);
    var x :| x in A && SignedText(a, s) == ApprovalText(x);
    ApprovalUnique(ApprovalOf(a, s), x);
  }

  lemma {:induction false} SignedIsApproval(a: Activation, s: Signature)
    ensures SignedText(a, s) == ApprovalText(ApprovalOf(a, s))
  {
    hide Join;
  }

  /** The report lists a change under its own values. */
  lemma {:induction false} ChangeShows(a: Activation)
    ensures var c := ChangeOf(a);
            && c.sequence == a.sequence && c.chainId == a.chainId && c.policyId == a.policyId
            && c.policyVersion == a.policyVersion && c.policyHash == a.policyHash && c.activatedAt == a.activatedAt
            && c.activationHash == a.activationHash
            && (a.signature.Some? ==> c.signedBy == a.signature.value.publicKey)
            && (a.signature.None? ==> c.signedBy == "")
            && (a.anchor.Some? ==> c.logEntry == a.anchor.value.logEntryId)
  {
  }
}
