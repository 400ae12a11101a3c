/**
 Policy changes as a hash chain (internal/artifacts/policy_activation.go): each record is hashed over
 length-prefixed fields, and the hash text can be read back into the record in one way only.
 */
module Activation {
  import opened Text
  import opened Decimal
  import Job

  datatype Signature = Signature(publicKey: string, signature: string, signedAt: string, nonce: string)

  /** The public-log entry a record carries. `evidence` stands for the fields only the log check reads. */
  datatype Entry = Entry(backend: string, receiptKind: string, receiptHash: string, leafHashHex: string,
      entryBody: string, logEntryId: string, integratedTime: int, evidence: string)

  datatype Activation = Activation(format: string, chainId: string, sequence: int, previousHash: string,
      policyId: string, policyVersion: string, policyHash: string, documentHash: string, activatedAt: string,
      signature: Option<Signature>, activationHash: string, anchor: Option<Entry>)

  const FORMAT := "verdifax.policy.activation.v1"
  const KIND := "policy_activation"
  const SIGNATURE_FORM := "verdifax.policy-activation.v1"

  /** PolicyActivation.Validate. */
  predicate Valid(a: Activation) {
    && a.format == FORMAT
    && a.chainId != "" && '.' !in a.chainId
    && a.sequence > 0
    && Job.ValidHash(a.previousHash) && Job.ValidHash(a.policyHash) && Job.ValidHash(a.documentHash)
    && Job.ValidHash(a.activationHash)
  }

  // ----- The hash -----

  function Field(f: string): string { PrintNat(|f|) + ":" + f }

  function Encoded(fields: seq<string>): string {
    if fields == [] then "" else Field(fields[0]) + Encoded(fields[1..])
  }

  function SignatureFields(s: Option<Signature>): seq<string> {
    if s.None? then [] else [s.value.publicKey, s.value.signature, s.value.signedAt, s.value.nonce]
  }

  function Fields(a: Activation): seq<string> {
    [a.format, a.chainId, PrintInt(a.sequence), a.previousHash, a.policyId, a.policyVersion, a.policyHash,
        a.documentHash, a.activatedAt]
    + SignatureFields(a.signature)
  }

  /** What the record's hash is taken over. */
  function Preimage(a: Activation): string { Encoded(Fields(a)) }

  lemma {:induction false} EncodedAppend(fields: seq<string>, f: string)
    ensures Encoded(fields + [f]) == Encoded(fields) + Field(f)
  {
    hide Field;
    if fields == [] {
      assert fields + [f] == [f];
      assert [f][1..] == [] && Encoded([f]) == Field(f) + Encoded([f][1..]);
    } else {
      EncodedAppend(fields[1..], f);
      assert (fields + [f])[1..] == fields[1..] + [f];
    }
  }

  /** ComputeHash: the fields written one by one into a running digest. */
  method ComputeHash(H: Hash, a: Activation) returns (hex: string)
    ensures hex == H(Preimage(a))
  {
    hide PrintNat;
    var fields := [a.format, a.chainId, PrintInt(a.sequence), a.previousHash, a.policyId, a.policyVersion,
        a.policyHash, a.documentHash, a.activatedAt];
    if a.signature.Some? {
      var s := a.signature.value;
      fields := fields + [s.publicKey, s.signature, s.signedAt, s.nonce];
    }
    var written := "";
    for i := 0 to |fields|
      invariant written == Encoded(fields[..i])
    {
      written := written + (PrintNat(|fields[i]|) + ":" + fields[i]);
      EncodedAppend(fields[..i], fields[i]);
      assert fields[..i] + [fields[i]] == fields[..i + 1];
    }
    assert fields[..|fields|] == fields == Fields(a);
    hex := H(written);
  }

  lemma {:induction false} FieldSplit(f: string, s: string)
    ensures Field(f) + s == PrintNat(|f|) + (":" + (f + s))
  {
    hide PrintNat;
  }

  /** A length prefix says where the field ends, whatever the field holds. */
  lemma {:induction false} FieldUnique(f: string, s: string, g: string, t: string)
    requires Field(f) + s == Field(g) + t
    ensures f == g && s == t
  {
    hide PrintNat, ReadNat;
    PrintThenRead(|f|);
    PrintThenRead(|g|);
    FieldSplit(f, s);
    FieldSplit(g, t);
    SpanUnique(PrintNat(|f|), ":" + (f + s), PrintNat(|g|), ":" + (g + t), IsDigit);
    PrefixUnique(":", f + s, ":", g + t);
    PrefixUnique(f, s, g, t);
  }

  lemma {:induction false} EncodedUnique(a: seq<string>, b: seq<string>)
    requires Encoded(a) == Encoded(b)
    ensures a == b
    decreases |a|
  {
    if a != [] && b != [] {
      FieldUnique(a[0], Encoded(a[1..]), b[0], Encoded(b[1..]));
      EncodedUnique(a[1..], b[1..]);
      assert a == [a[0]] + a[1..] && b == [b[0]] + b[1..];
    }
  }

  /** What the hash covers: everything but the hash itself and the anchor. */
  function Hashed(a: Activation): Activation { a.(activationHash := "", anchor := None) }

  /** Equal preimages come from records equal in every hashed field, with or without a signature alike. */
  lemma {:induction false} PreimageUnique(a: Activation, b: Activation)
    requires Preimage(a) == Preimage(b)
    ensures Hashed(a) == Hashed(b)
  {
    hide Encoded, PrintInt;
    EncodedUnique(Fields(a), Fields(b));
    var f, g := Fields(a), Fields(b);
    assert |f| == if a.signature.None? then 9 else 13;
    assert |g| == if b.signature.None? then 9 else 13;
    assert f[0] == g[0] && f[1] == g[1] && f[2] == g[2] && f[3] == g[3] && f[4] == g[4] && f[5] == g[5]
        && f[6] == g[6] && f[7] == g[7] && f[8] == g[8];
    assert PrintInt(a.sequence) + "" == PrintInt(a.sequence) && PrintInt(b.sequence) + "" == PrintInt(b.sequence);
    PrintIntUnique(a.sequence, "", b.sequence, "");
    if a.signature.Some? {
      assert f[9] == g[9] && f[10] == g[10] && f[11] == g[11] && f[12] == g[12];
    }
  }
}

/** A history of policy changes and the checks on it (policyhistory.go). */
module PolicyHistory {
  import opened Text
  import opened Activation
  import opened Decimal

  function Zeros(n: nat): (zeros: string)
    ensures |zeros| == n && forall c :: c in zeros ==> c == '0'
  {
    if n == 0 then "" else Zeros(n - 1) + "0"
  }

  const NO_PREVIOUS := Zeros(64)

  const LEAF_DOMAIN_V3 := "verdifax.ledger.receipt.v3"

  /**
   What the checks call and this model does not: SHA-256 in hex, case folding, RFC 3339 times in nanoseconds
   after Go's zero time, base64, Ed25519, the public-log check, and the signer and time rules of an entry.
   */
  datatype World = World(hash: Hash, fold: string -> string, readTime: string -> Option<int>,
      base64: string -> Option<string>, verifies: (string, string, string) -> bool, onLog: Entry -> bool,
      signerAccepted: Entry -> bool, inWindow: (Entry, int) -> bool)

  datatype Fault = BadShape | OutOfSequence | NotLinked | WrongHash | BadTime | Backdated | BadSignature | NoEntry
                 | OtherBackend | NotBound | NotOnLog | BadSigner | OutsideWindow

  function LeafFields(a: Activation): seq<string> {
    [KIND, a.chainId, a.activationHash, PrintInt(a.sequence), a.previousHash]
  }

  function LeafText(a: Activation): string { Join([LEAF_DOMAIN_V3] + LeafFields(a), '.') }

  /** The public-log leaf that binds a record. */
  function LeafHash(W: World, a: Activation): string { W.hash(LeafText(a)) }

  /** What the request key signs. */
  function SignedText(a: Activation, s: Signature): string { Join(SignedFields(a, s), '\0') }

  function SignedFields(a: Activation, s: Signature): seq<string> {
    [SIGNATURE_FORM, a.chainId, a.documentHash, a.previousHash, s.signedAt, s.nonce]
  }

  lemma {:induction false} LeafFieldsFree(a: Activation)
    requires Valid(a)
    ensures AllFree(LeafFields(a), '.')
  {
    hide PrintNat;
    assert '.' !in KIND;
    HashFree(a.activationHash);
    HashFree(a.previousHash);
    NumberFree(a.sequence);
  }

  lemma {:induction false} HashFree(h: string)
    requires Job.ValidHash(h)
    ensures '.' !in h
  {
  }

  lemma {:induction false} NumberFree(n: int)
    ensures '.' !in PrintInt(n)
  {
    PrintThenRead(if n < 0 then -n else n);
  }

  /** The domain tag, dots and all, comes off the front. */
  lemma {:induction false} LeafTextTail(a: Activation)
    ensures LeafText(a) == LEAF_DOMAIN_V3 + ("." + Join(LeafFields(a), '.'))
  {
    assert ([LEAF_DOMAIN_V3] + LeafFields(a))[1..] == LeafFields(a);
  }

  /** One leaf binds one place: valid records with the same leaf have the same chain, hash, sequence and predecessor. */
  lemma {:induction false} LeafFixesPlace(W: World, a: Activation, b: Activation)
    requires Valid(a) && Valid(b) && InjectiveOn(W.hash, {LeafText(a), LeafText(b)}) && LeafHash(W, a) == LeafHash(W, b)
    ensures a.chainId == b.chainId && a.activationHash == b.activationHash && a.sequence == b.sequence
        && a.previousHash == b.previousHash
  {
    hide Join, Valid, PrintInt;
    assert SameDigest(W.hash, LeafText(a), LeafText(b));
    LeafTextTail(a);
    LeafTextTail(b);
    var x, y := Join(LeafFields(a), '.'), Join(LeafFields(b), '.');
    PrefixUnique(LEAF_DOMAIN_V3, "." + x, LEAF_DOMAIN_V3, "." + y);
    PrefixUnique(".", x, ".", y);
    LeafFieldsFree(a);
    LeafFieldsFree(b);
    JoinInjective(LeafFields(a), LeafFields(b), '.');
    var f, g := LeafFields(a), LeafFields(b);
    assert f[1] == g[1] && f[2] == g[2] && f[3] == g[3] && f[4] == g[4];
    assert PrintInt(a.sequence) + "" == PrintInt(a.sequence) && PrintInt(b.sequence) + "" == PrintInt(b.sequence);
    PrintIntUnique(a.sequence, "", b.sequence, "");
  }

  /** A signed text cannot be carried to another chain, policy text, place, time or nonce. */
  lemma {:induction false} SignedTextUnique(a: Activation, s: Signature, b: Activation, t: Signature)
    requires AllFree(SignedFields(a, s), '\0') && AllFree(SignedFields(b, t), '\0')
    ensures SignedText(a, s) == SignedText(b, t) <==>
            a.chainId == b.chainId && a.documentHash == b.documentHash && a.previousHash == b.previousHash
            && s.signedAt == t.signedAt && s.nonce == t.nonce
  {
    hide Join, AllFree;
    var f, g := SignedFields(a, s), SignedFields(b, t);
    if SignedText(a, s) == SignedText(b, t) {
      JoinInjective(f, g, '\0');
      assert f[1] == g[1] && f[2] == g[2] && f[3] == g[3] && f[4] == g[4] && f[5] == g[5];
    }
  }

  predicate SignatureHolds(W: World, a: Activation) {
    a.signature.Some? ==>
      var s := a.signature.value;
      && W.base64(s.publicKey).Some? && |W.base64(s.publicKey).value| == 32
      && W.base64(s.signature).Some? && |W.base64(s.signature).value| == 64
      && W.verifies(W.base64(s.publicKey).value, SignedText(a, s), W.base64(s.signature).value)
  }

  predicate EntryBinds(W: World, a: Activation) {
    && a.anchor.Some?
    && a.anchor.value.backend == "rekor"
    && a.anchor.value.receiptKind == KIND && a.anchor.value.receiptHash == a.activationHash
    && W.fold(a.anchor.value.leafHashHex) == W.fold(LeafHash(W, a))
  }

  /** A record in good order at its place in the chain. */
  predicate Links(W: World, a: Activation, sequence: int, previous: string, previousAt: int) {
    && Valid(a) && a.sequence == sequence && a.previousHash == previous
    && W.hash(Preimage(a)) == a.activationHash
    && W.readTime(a.activatedAt).Some? && previousAt <= W.readTime(a.activatedAt).value
    && SignatureHolds(W, a)
    && EntryBinds(W, a) && W.onLog(a.anchor.value) && W.signerAccepted(a.anchor.value)
    && W.inWindow(a.anchor.value, W.readTime(a.activatedAt).value)
  }

  /** The record really has the fault named. */
  predicate Has(W: World, a: Activation, sequence: int, previous: string, previousAt: int, fault: Fault) {
    match fault
    case BadShape => !Valid(a)
    case OutOfSequence => a.sequence != sequence
    case NotLinked => a.previousHash != previous
    case WrongHash => W.hash(Preimage(a)) != a.activationHash
    case BadTime => W.readTime(a.activatedAt).None?
    case Backdated => W.readTime(a.activatedAt).Some? && W.readTime(a.activatedAt).value < previousAt
    case BadSignature => !SignatureHolds(W, a)
    case NoEntry => a.anchor.None?
    case OtherBackend => a.anchor.Some? && a.anchor.value.backend != "rekor"
    case NotBound => a.anchor.Some? && !EntryBinds(W, a)
    case NotOnLog => a.anchor.Some? && !W.onLog(a.anchor.value)
    case BadSigner => a.anchor.Some? && !W.signerAccepted(a.anchor.value)
    case OutsideWindow =>
      && a.anchor.Some? && W.readTime(a.activatedAt).Some?
      && !W.inWindow(a.anchor.value, W.readTime(a.activatedAt).value)
  }

  method CheckActivationSignature(W: World, a: Activation) returns (fault: Option<Fault>)
    ensures fault.None? <==> SignatureHolds(W, a)
    ensures fault.Some? ==> fault.value == BadSignature
  {
    if a.signature.None? {
      return None;
    }
    var s := a.signature.value;
    var pub, sig := W.base64(s.publicKey), W.base64(s.signature);
    if pub.None? || sig.None? || |pub.value| != 32 || |sig.value| != 64 {
      return Some(BadSignature);
    }
    if !W.verifies(pub.value, SignedText(a, s), sig.value) {
      return Some(BadSignature);
    }
    return None;
  }

  method CheckActivationEntry(W: World, a: Activation, at: int) returns (fault: Option<Fault>)
    ensures fault.None? <==>
        EntryBinds(W, a) && W.onLog(a.anchor.value) && W.signerAccepted(a.anchor.value)
        && W.inWindow(a.anchor.value, at)
    ensures fault.Some? && W.readTime(a.activatedAt) == Some(at) ==> Has(W, a, 0, "", 0, fault.value)
    ensures fault.Some? ==> fault.value in {NoEntry, OtherBackend, NotBound, NotOnLog, BadSigner, OutsideWindow}
  {
    if a.anchor.None? {
      return Some(NoEntry);
    }
    var entry := a.anchor.value;
    if entry.backend != "rekor" {
      return Some(OtherBackend);
    }
    if entry.receiptKind != KIND || entry.receiptHash != a.activationHash
        || W.fold(entry.leafHashHex) != W.fold(LeafHash(W, a)) {
      return Some(NotBound);
    }
    if !W.onLog(entry) {
      return Some(NotOnLog);
    }
    if !W.signerAccepted(entry) {
      return Some(BadSigner);
    }
    if !W.inWindow(entry, at) {
      return Some(OutsideWindow);
    }
    return None;
  }

  /** checkActivation: the record's instant when it links, otherwise the first fault met. */
  method CheckActivation(W: World, a: Activation, sequence: int, previous: string, previousAt: int)
      returns (at: int, fault: Option<Fault>)
    ensures fault.None? <==> Links(W, a, sequence, previous, previousAt)
    ensures fault.None? ==> Some(at) == W.readTime(a.activatedAt)
    ensures fault.Some? ==> Has(W, a, sequence, previous, previousAt, fault.value)
  {
    if !Valid(a) {
      return 0, Some(BadShape);
    }
    if a.sequence != sequence {
      return 0, Some(OutOfSequence);
    }
    if a.previousHash != previous {
      return 0, Some(NotLinked);
    }
    var got := ComputeHash(W.hash, a);
    if got != a.activationHash {
      return 0, Some(WrongHash);
    }
    var time := W.readTime(a.activatedAt);
    if time.None? {
      return 0, Some(BadTime);
    }
    if time.value < previousAt {
      return 0, Some(Backdated);
    }
    fault := CheckActivationSignature(W, a);
    if fault.Some? {
      return 0, fault;
    }
    fault := CheckActivationEntry(W, a, time.value);
    return time.value, fault;
  }

  // ----- The chain -----

  /** What comes before a change: its hash and instant, or the fixed start. */
  function PreviousHash(chain: seq<Activation>, i: nat): string
    requires i <= |chain|
  {
    if i == 0 then NO_PREVIOUS else chain[i - 1].activationHash
  }

  function InstantBefore(W: World, chain: seq<Activation>, i: nat): int
    requires i <= |chain|
  {
    if i == 0 || W.readTime(chain[i - 1].activatedAt).None? then 0 else W.readTime(chain[i - 1].activatedAt).value
  }

  predicate LinksAt(W: World, chain: seq<Activation>, i: nat)
    requires i < |chain|
  {
    Links(W, chain[i], i + 1, PreviousHash(chain, i), InstantBefore(W, chain, i))
  }

  ghost predicate Linked(W: World, chain: seq<Activation>) { forall i :: 0 <= i < |chain| ==> LinksAt(W, chain, i) }

  ghost predicate Accepted(W: World, chain: seq<Activation>) { chain != [] && Linked(W, chain) }

  /** One change as the report lists it. */
  datatype Change = Change(sequence: int, chainId: string, policyId: string, policyVersion: string, policyHash: string,
      activatedAt: string, activationHash: string, signedBy: string, logEntry: string)

  function ChangeOf(a: Activation): Change {
    Change(a.sequence, a.chainId, a.policyId, a.policyVersion, a.policyHash, a.activatedAt, a.activationHash,
           if a.signature.Some? then a.signature.value.publicKey else "",
           if a.anchor.Some? then a.anchor.value.logEntryId else "")
  }

  /** How the history file reads. */
  datatype File = NotPlainJson | Unreadable | Chain(chain: seq<Activation>)

  datatype Reason = NoReason | FileNotPlain | FileUnreadable | NoChanges | AtChange(number: nat, fault: Fault)
                  | RecordNamesNone | NotInHistory

  lemma {:induction false} Start(W: World, chain: seq<Activation>)
    ensures PreviousHash(chain, 0) == NO_PREVIOUS && InstantBefore(W, chain, 0) == 0
  {
  }

  /** What a change that links hands on to the next, and how the report lists it. */
  lemma {:induction false} Next(W: World, chain: seq<Activation>, i: nat)
    requires i < |chain| && LinksAt(W, chain, i)
    ensures PreviousHash(chain, i + 1) == chain[i].activationHash
        && Some(InstantBefore(W, chain, i + 1)) == W.readTime(chain[i].activatedAt)
    ensures chain[i].anchor.Some?
    ensures var a := chain[i];
            ChangeOf(a) == Change(a.sequence, a.chainId, a.policyId, a.policyVersion, a.policyHash, a.activatedAt,
                                  a.activationHash, if a.signature.Some? then a.signature.value.publicKey else "",
                                  a.anchor.value.logEntryId)
  {
  }

  class PolicyHistoryCheck {
    var ok: bool
    var entries: seq<Change>
    var recordInChain: bool
    var reason: Reason

    constructor ()
      ensures !ok && entries == [] && !recordInChain && reason == NoReason
    {
      ok, entries, recordInChain, reason := false, [], false, NoReason;
    }

    /** checkPolicyHistory: every change listed while all hold, or the first change that does not. */
    method CheckPolicyHistory(W: World, file: File)
      requires !ok && entries == [] && !recordInChain && reason == NoReason
      modifies this
      ensures ok <==> file.Chain? && Accepted(W, file.chain)
      ensures !recordInChain
      ensures file.Chain? ==> |entries| <= |file.chain| && forall i :: 0 <= i < |entries| ==>
          entries[i] == ChangeOf(file.chain[i]) && LinksAt(W, file.chain, i)
      ensures ok ==> reason == NoReason && |entries| == |file.chain|
      ensures file.NotPlainJson? ==> reason == FileNotPlain
      ensures file.Unreadable? ==> reason == FileUnreadable
      ensures file.Chain? && !ok ==>
                if file.chain == [] then reason == NoChanges
                else
                  && reason.AtChange? && reason.number == |entries| + 1 <= |file.chain|
                  && !LinksAt(W, file.chain, |entries|)
                  && Has(W, file.chain[|entries|], reason.number, PreviousHash(file.chain, |entries|),
                         InstantBefore(W, file.chain, |entries|), reason.fault)
    {
      hide Links, InstantBefore, PreviousHash, ChangeOf, Has;
      if file.NotPlainJson? {
        reason := FileNotPlain;
        return;
      }
      if file.Unreadable? {
        reason := FileUnreadable;
        return;
      }
      var chain := file.chain;
      if |chain| == 0 {
        reason := NoChanges;
        return;
      }
      var previous, previousAt := NO_PREVIOUS, 0;
      Start(W, chain);
      for i := 0 to |chain|
        invariant !ok && !recordInChain && reason == NoReason
        invariant previous == PreviousHash(chain, i) && previousAt == InstantBefore(W, chain, i)
        invariant |entries| == i && forall k :: 0 <= k < i ==> entries[k] == ChangeOf(chain[k]) && LinksAt(W, chain, k)
      {
        var a := chain[i];
        var at, fault := CheckActivation(W, a, i + 1, previous, previousAt);
        assert fault.None? <==> LinksAt(W, chain, i);
        if fault.Some? {
          reason := AtChange(i + 1, fault.value);
          return;
        }
        Next(W, chain, i);
        var signedBy := "";
        if a.signature.Some? {
          signedBy := a.signature.value.publicKey;
        }
        var entry := Change(a.sequence, a.chainId, a.policyId, a.policyVersion, a.policyHash, a.activatedAt,
            a.activationHash, signedBy, a.anchor.value.logEntryId);
        entries := entries + [entry];
        previous, previousAt := a.activationHash, at;
      }
      ok := true;
    }

    /** recordInChain: the change a record names must be in the history. */
    method RecordInChain(activationHash: string)
      requires ok ==> !recordInChain
      modifies this
      ensures entries == old(entries)
      ensures ok <==> old(ok) && activationHash != "" && exists e :: e in entries && e.activationHash == activationHash
      ensures recordInChain <==> ok || (!old(ok) && old(recordInChain))
      ensures old(ok) && !ok ==> reason == if activationHash == "" then RecordNamesNone else NotInHistory
      ensures old(ok) == ok ==> reason == old(reason)
    {
      if !ok {
        return;
      }
      if activationHash == "" {
        ok := false;
        reason := RecordNamesNone;
        return;
      }
      for i := 0 to |entries|
        invariant ok && !recordInChain && entries == old(entries) && reason == old(reason)
        invariant forall k :: 0 <= k < i ==> entries[k].activationHash != activationHash
      {
        if entries[i].activationHash == activationHash {
          recordInChain := true;
          return;
        }
      }
      ok := false;
      reason := NotInHistory;
    }
  }

  // ----- What an accepted history fixes -----

  ghost function Preimages(chain: seq<Activation>): set<string> { set i | 0 <= i < |chain| :: Preimage(chain[i]) }

  /** Links between neighbours: a step's sequence, hash and link, in the words the proofs use. */
  lemma {:induction false} LinkFacts(W: World, chain: seq<Activation>, i: nat)
    requires i < |chain| && LinksAt(W, chain, i)
    ensures chain[i].sequence == i + 1 && chain[i].previousHash == PreviousHash(chain, i)
    ensures W.hash(Preimage(chain[i])) == chain[i].activationHash && Preimage(chain[i]) in Preimages(chain)
    ensures W.readTime(chain[i].activatedAt).Some?
        && InstantBefore(W, chain, i) <= W.readTime(chain[i].activatedAt).value
  {
    hide Preimage, EntryBinds, SignatureHolds, Valid;
  }

  /** Equal activation hashes at any two places: the same place, the same record but for its log entry. */
  lemma {:induction false} SameHashSameChange(W: World, a: seq<Activation>, b: seq<Activation>, i: nat, j: nat)
    requires i < |a| && j < |b| && LinksAt(W, a, i) && LinksAt(W, b, j)
    requires a[i].activationHash == b[j].activationHash && InjectiveOn(W.hash, Preimages(a) + Preimages(b))
    ensures i == j && a[i].(anchor := None) == b[j].(anchor := None)
  {
    hide Preimage, LinksAt, Preimages;
    LinkFacts(W, a, i);
    LinkFacts(W, b, j);
    assert SameDigest(W.hash, Preimage(a[i]), Preimage(b[j]));
    PreimageUnique(a[i], b[j]);
  }

  /**
   A history is fixed by any activation hash in it: another accepted history that holds the hash holds it at the
   same place and agrees with it on every earlier change, signature present or absent included.
   */
  lemma {:induction false} HistoryFixedByTip(W: World, a: seq<Activation>, b: seq<Activation>, i: nat, j: nat)
    requires Linked(W, a) && Linked(W, b) && i < |a| && j < |b|
    requires a[i].activationHash == b[j].activationHash && InjectiveOn(W.hash, Preimages(a) + Preimages(b))
    ensures i == j && forall k :: 0 <= k <= i ==> a[k].(anchor := None) == b[k].(anchor := None)
    decreases i
  {
    hide LinksAt, Preimages;
    SameHashSameChange(W, a, b, i, j);
    if i > 0 {
      LinkFacts(W, a, i);
      LinkFacts(W, b, j);
      HistoryFixedByTip(W, a, b, i - 1, j - 1);
    }
  }

  /** No activation hash stands twice in a history, so the change a record names is one change. */
  lemma {:induction false} NamedChangeIsOne(W: World, a: seq<Activation>, i: nat, j: nat)
    requires Linked(W, a) && i < |a| && j < |a| && a[i].activationHash == a[j].activationHash
        && InjectiveOn(W.hash, Preimages(a))
    ensures i == j
  {
    assert Preimages(a) + Preimages(a) == Preimages(a);
    SameHashSameChange(W, a, a, i, j);
  }

  /** Activation times never go back, over any pair of changes. */
  lemma {:induction false} TimesInOrder(W: World, a: seq<Activation>, i: nat, j: nat)
    requires Linked(W, a) && i <= j < |a|
    ensures W.readTime(a[i].activatedAt).Some? && W.readTime(a[j].activatedAt).Some?
    ensures 0 <= W.readTime(a[i].activatedAt).value <= W.readTime(a[j].activatedAt).value
    decreases j
  {
    hide LinksAt, Preimages;
    LinkFacts(W, a, j);
    if i < j {
      TimesInOrder(W, a, i, j - 1);
    } else if j > 0 {
      TimesInOrder(W, a, j - 1, j - 1);
    }
  }

  /**
   Exactly the histories cut off at the end pass beside a given one: a history of the same changes, some left out,
   is accepted just when it is a beginning of it. So a change can be dropped only together with all that follow.
   */
  lemma {:induction false} OnlyTheEndCanBeDropped(W: World, a: seq<Activation>, b: seq<Activation>)
    requires Accepted(W, a) && b != [] && forall x :: x in b ==> x in a
    ensures Accepted(W, b) <==> b <= a
  {
    hide LinksAt;
    if Accepted(W, b) {
      KeepsItsPlace(W, a, b, |b| - 1);
      forall j | 0 <= j < |b| ensures a[j] == b[j] { KeepsItsPlace(W, a, b, j); }
      assert b == a[..|b|];
    } else if b <= a {
      BeginningLinks(W, a, b);
    }
  }

  lemma {:induction false} KeepsItsPlace(W: World, a: seq<Activation>, b: seq<Activation>, j: nat)
    requires Linked(W, a) && Linked(W, b) && j < |b| && b[j] in a
    ensures j < |a| && a[j] == b[j]
  {
    hide LinksAt;
    var i: nat :| i < |a| && a[i] == b[j];
    LinkFacts(W, a, i);
    LinkFacts(W, b, j);
  }

  lemma {:induction false} BeginningLinks(W: World, a: seq<Activation>, b: seq<Activation>)
    requires Linked(W, a) && b <= a
    ensures Linked(W, b)
  {
    hide Links;
    forall j | 0 <= j < |b| ensures LinksAt(W, b, j) { assert LinksAt(W, a, j); }
  }

  // ----- One chain or several -----

  /** The first and the second change of a history, unsigned and logged, each under a chain of its own naming. */
  function FirstOf(W: World, chainId: string, at: string, policy: string): Activation {
    Logged(W, Activation(FORMAT, chainId, 1, NO_PREVIOUS, "p", "1", policy, policy, at, None, "", None))
  }

  function SecondOf(W: World, chainId: string, at: string, policy: string, previous: string): Activation {
    Logged(W, Activation(FORMAT, chainId, 2, previous, "p", "2", policy, policy, at, None, "", None))
  }

  /** A record with its hash filled in and an entry that binds it. */
  function Logged(W: World, a: Activation): Activation {
    var hashed := a.(activationHash := W.hash(Preimage(a)));
    hashed.(anchor := Some(Entry("rekor", KIND, hashed.activationHash, LeafHash(W, hashed), "", "", 0, "")))
  }

  ghost predicate LogTakes(W: World, a: Activation, at: int) {
    a.anchor.Some? && W.onLog(a.anchor.value) && W.signerAccepted(a.anchor.value) && W.inWindow(a.anchor.value, at)
  }

  lemma {:induction false} LoggedLinks(W: World, a: Activation, at: int)
    requires a.signature.None? && a.anchor.None? && Valid(a.(activationHash := W.hash(Preimage(a))))
    requires W.readTime(a.activatedAt) == Some(at) && LogTakes(W, Logged(W, a), at)
    ensures forall before: int :: before <= at ==> Links(W, Logged(W, a), a.sequence, a.previousHash, before)
  {
    hide Encoded, Fields, Valid, LeafText;
    var b := Logged(W, a);
    SamePreimage(a, b);
    assert b.(anchor := None) == a.(activationHash := W.hash(Preimage(a)));
    SameLeaf(b);
    SameShape(b);
  }

  lemma {:induction false} SamePreimage(a: Activation, b: Activation)
    requires Hashed(a) == Hashed(b)
    ensures Preimage(a) == Preimage(b)
  {
  }

  lemma {:induction false} SameLeaf(b: Activation)
    ensures LeafText(b.(anchor := None)) == LeafText(b)
  {
  }

  lemma {:induction false} SameShape(b: Activation)
    ensures Valid(b) <==> Valid(b.(anchor := None))
  {
  }

  /**
   Nothing compares the chain ids of neighbours: whatever two ids are given, the log need only take the two records
   for a history that moves from one chain to the other to be accepted.
   */
  lemma {:induction false} ChainsCanMix(W: World, x: string, y: string, at: string, policy: string)
    requires x != "" && '.' !in x && y != "" && '.' !in y && Job.ValidHash(policy)
    requires (forall s :: Job.ValidHash(W.hash(s))) && W.readTime(at).Some? && W.readTime(at).value >= 0
    requires LogTakes(W, FirstOf(W, x, at, policy), W.readTime(at).value)
    requires LogTakes(W, SecondOf(W, y, at, policy, FirstOf(W, x, at, policy).activationHash), W.readTime(at).value)
    ensures var a := FirstOf(W, x, at, policy);
            var chain := [a, SecondOf(W, y, at, policy, a.activationHash)];
            Accepted(W, chain) && chain[0].chainId == x && chain[1].chainId == y
  {
    hide Preimage, Links, LogTakes, LeafText, LeafHash;
    var n := W.readTime(at).value;
    var a := FirstOf(W, x, at, policy);
    var chain := [a, SecondOf(W, y, at, policy, a.activationHash)];
    ZerosAreAHash();
    LoggedLinks(W, Activation(FORMAT, x, 1, NO_PREVIOUS, "p", "1", policy, policy, at, None, "", None), n);
    LoggedLinks(W, Activation(FORMAT, y, 2, a.activationHash, "p", "2", policy, policy, at, None, "", None), n);
    assert LinksAt(W, chain, 0) && LinksAt(W, chain, 1);
  }

  lemma {:induction false} ZerosAreAHash()
    ensures Job.ValidHash(NO_PREVIOUS)
  {
  }

  /** All changes belong to one chain. */
  ghost predicate OneChain(a: seq<Activation>) {
    forall i, j :: 0 <= i < |a| && 0 <= j < |a| ==> a[i].chainId == a[j].chainId
  }

  /** What would have to be compared: each change with the one before it. */
  lemma {:induction false} OneChainIff(a: seq<Activation>)
    ensures OneChain(a) <==> forall i :: 0 < i < |a| ==> a[i].chainId == a[i - 1].chainId
  {
    if |a| > 1 {
      var n := |a| - 1;
      OneChainIff(a[..n]);
      if forall i :: 0 < i < |a| ==> a[i].chainId == a[i - 1].chainId {
        forall i | 0 <= i < n ensures a[i].chainId == a[n].chainId {
          assert a[..n][i].chainId == a[..n][n - 1].chainId;
        }
      }
    }
  }
}
