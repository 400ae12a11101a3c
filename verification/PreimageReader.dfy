/**
 Preimages read back part by part, by the tags and places their formats give them. The readers hold the tags
 themselves, so what comes back fixes both which part stands where and what it is called.
 */
module PreimageReader {
  import opened Text
  import opened Job
  import opened Preimages

  /** The part at a place, empty past the end. */
  function Part(parts: seq<string>, i: nat): string { if i < |parts| then parts[i] else "" }

  function Drop(parts: seq<string>, n: nat): seq<string> { if n <= |parts| then parts[n..] else [] }

  // ----- The blocks -----

  /** A list of hashes as one part holds it. */
  function ReadList(s: string): seq<string> { if s == "" then [] else Split(s, ',') }

  function ReadJob(parts: seq<string>): Option<JobLink> {
    if Part(parts, 0) != "verdifax.job.v1" then None
    else
      Some(JobLink(Part(parts, 1), Part(parts, 2), ReadList(Part(parts, 3)), ReadList(Part(parts, 4)),
        Part(parts, 5) == "true"))
  }

  /** The four fields of a version 1 signature, or the seven of a later one. */
  function ReadSignature(parts: seq<string>, n: nat): RequestSignature {
    if n == 4 then RequestSignature(Part(parts, 0), Part(parts, 1), Part(parts, 2), Part(parts, 3), "", "", "")
    else
      RequestSignature(Part(parts, 0), Part(parts, 1), Part(parts, 2), Part(parts, 3), Part(parts, 4), Part(parts, 5),
        Part(parts, 6))
  }

  /** A policy binding as the text shows it: the inputs only by their digest. */
  datatype Bound = Bound(source: string, policyHash: string, documentHash: string, activationHash: string,
      outcome: string, firedRuleId: string, inputsHash: string)

  function ReadBinding(parts: seq<string>, tag: string): Option<Bound> {
    if Part(parts, 0) != tag then None
    else
      Some(Bound(Part(parts, 1), Part(parts, 2), Part(parts, 3), Part(parts, 4), Part(parts, 5), Part(parts, 6),
        Part(parts, 7)))
  }

  function BoundOf(H: Hash, b: Option<Binding>): Option<Bound> {
    if b.None? then None
    else
      var v := b.value;
      Some(Bound(v.source, v.policyHash, v.documentHash, v.activationHash, v.outcome, v.firedRuleId,
        if v.inputs.Some? then H(v.inputs.value) else ""))
  }

  lemma {:induction false} ListReads(hashes: seq<string>, limit: nat)
    requires ValidHashList(hashes, limit)
    ensures ReadList(Join(hashes, ',')) == hashes
  {
    HashListText(hashes, limit);
    if hashes != [] { SplitJoin(hashes, ','); }
  }

  lemma {:induction false} JobReads(j: Option<JobLink>, rest: seq<string>)
    requires JobOk(j) && OpensWithout(rest, "verdifax.job.v1")
    ensures ReadJob(JobBlock(j) + rest) == j
    ensures Drop(JobBlock(j) + rest, if j.Some? then 6 else 0) == rest
  {
    hide Split, Join, ReadList, ValidHashList;
    if j.Some? {
      ListReads(j.value.previous, MAX_PREVIOUS);
      ListReads(j.value.external, MAX_EXTERNAL);
    } else {
      assert JobBlock(j) + rest == rest;
    }
  }

  lemma {:induction false} SignatureReads(s: RequestSignature, rest: seq<string>)
    ensures Some(ReadSignature(SignatureFields(s) + rest, if s.version == "" then 4 else 7)) == SeenSignature(Some(s))
    ensures Drop(SignatureFields(s) + rest, if s.version == "" then 4 else 7) == rest
  {
  }

  lemma {:induction false} BindingReads(H: Hash, b: Option<Binding>, tag: string, rest: seq<string>)
    requires OpensWithout(rest, tag) && tag != ""
    ensures ReadBinding(BindingBlock(H, b, tag) + rest, tag) == BoundOf(H, b)
    ensures Drop(BindingBlock(H, b, tag) + rest, if b.Some? then 8 else 0) == rest
  {
    if b.None? { assert BindingBlock(H, b, tag) + rest == rest; }
  }

  lemma {:induction false} AccountReads(id: string, rest: seq<string>)
    requires OpensWithout(rest, "account")
    ensures Part(AccountBlock(id) + rest, 0) == "account" <==> id != ""
    ensures id != "" ==> Part(AccountBlock(id) + rest, 1) == id
    ensures Drop(AccountBlock(id) + rest, if id != "" then 2 else 0) == rest
  {
    if id == "" { assert AccountBlock(id) + rest == rest; }
  }

  // ----- Receipt contexts -----

  datatype ContextRead = ContextRead(request: Request, signature: Option<RequestSignature>, job: Option<JobLink>,
      policy: Option<Bound>, accountId: string, accountPolicy: Option<Bound>)

  /** What follows the job block. */
  function ReadPolicies(parts: seq<string>): (Option<Bound>, string, Option<Bound>) {
    var policy := ReadBinding(parts, "policy");
    var rest := Drop(parts, if policy.Some? then 8 else 0);
    var account := if Part(rest, 0) == "account" then Part(rest, 1) else "";
    var last := Drop(rest, if account != "" then 2 else 0);
    (policy, account, ReadBinding(last, "account_policy"))
  }

  /** A context's parts, in order. All blocks but the signature have an even number of parts. */
  function ReadContext(parts: seq<string>): Option<ContextRead> {
    if Part(parts, 0) != "verdifax.receipt-context.v1" then None
    else
      var request := Request(Part(parts, 1), Part(parts, 2), Part(parts, 3), Part(parts, 4), Part(parts, 5));
      var rest := Drop(parts, 6);
      var signed := Part(rest, 0) == "request_signature";
      var n := if |rest| % 2 == 1 then 4 else 7;
      var signature := if signed then Some(ReadSignature(Drop(rest, 1), n)) else None;
      var after := Drop(rest, if signed then 1 + n else 0);
      var job := ReadJob(after);
      var last := ReadPolicies(Drop(after, if job.Some? then 6 else 0));
      Some(ContextRead(request, signature, job, last.0, last.1, last.2))
  }

  lemma {:induction false} PoliciesRead(H: Hash, c: ReceiptContext)
    ensures ReadPolicies(AfterJob(H, c)) == (BoundOf(H, c.policy), c.accountId, BoundOf(H, c.accountPolicy))
  {
    hide BindingBlock, AccountBlock, ReadBinding, BoundOf, Drop, Part;
    ContextShape(H, c);
    BindingReads(H, c.policy, "policy", AfterPolicy(H, c));
    AccountReads(c.accountId, BindingBlock(H, c.accountPolicy, "account_policy"));
    BindingReads(H, c.accountPolicy, "account_policy", []);
    var last := BindingBlock(H, c.accountPolicy, "account_policy");
    assert last + [] == last;
    BoundWhenPresent(H, c.policy);
  }

  lemma {:induction false} BoundWhenPresent(H: Hash, b: Option<Binding>)
    ensures BoundOf(H, b).Some? <==> b.Some?
  {
  }

  /** What stands between the request's fields and the job block. */
  lemma {:induction false} SignedOrNot(H: Hash, c: ReceiptContext)
    ensures var rest, signed := SignatureBlock(c.signature) + AfterSignature(H, c), c.signature.Some?;
            && (Part(rest, 0) == "request_signature" <==> signed)
            && (signed ==> |rest| % 2 == if c.signature.value.version == "" then 1 else 0)
            && (signed ==> Drop(rest, 1) == SignatureFields(c.signature.value) + AfterSignature(H, c))
            && (!signed ==> rest == AfterSignature(H, c))
  {
    hide AfterSignature, SignatureFields, HalfAfterSignature, Part, Drop;
    ContextShape(H, c);
    var after := AfterSignature(H, c);
    if c.signature.Some? {
      var fields := SignatureFields(c.signature.value);
      assert SignatureBlock(c.signature) + after == ["request_signature"] + (fields + after);
      TagFirst("request_signature", fields + after);
      OddOrEven(HalfAfterSignature(c));
    } else {
      assert SignatureBlock(c.signature) + after == after;
      NoTag(after, "request_signature");
    }
  }

  lemma {:induction false} TagFirst(tag: string, rest: seq<string>)
    ensures Part([tag] + rest, 0) == tag && Drop([tag] + rest, 1) == rest
  {
  }

  lemma {:induction false} NoTag(parts: seq<string>, tag: string)
    requires OpensWithout(parts, tag) && tag != ""
    ensures Part(parts, 0) != tag
  {
  }

  lemma {:induction false} OddOrEven(h: nat)
    ensures (h + h + 5) % 2 == 1 && (h + h + 8) % 2 == 0
  {
  }

  /** A receipt context's parts read back as the context, but for what a version 1 signature leaves out. */
  lemma {:induction false} ContextPartsRead(H: Hash, c: ReceiptContext)
    requires JobOk(c.job)
    ensures ReadContext(ContextParts(H, c)) ==
            Some(ContextRead(c.request, SeenSignature(c.signature), c.job, BoundOf(H, c.policy), c.accountId,
                BoundOf(H, c.accountPolicy)))
  {
    hide SignatureBlock, SignatureFields, AfterSignature, ReadSignature, SeenSignature, ReadJob, JobOk, ReadPolicies;
    RequestFirst(H, c);
    SignedOrNot(H, c);
    JobNext(H, c);
    var rest := SignatureBlock(c.signature) + AfterSignature(H, c);
    if c.signature.Some? {
      SignatureReads(c.signature.value, AfterSignature(H, c));
      DropTwice(rest, 1, if c.signature.value.version == "" then 4 else 7);
    } else {
      NoSignature();
    }
  }

  lemma {:induction false} NoSignature()
    ensures SeenSignature(None) == None
  {
  }

  lemma {:induction false} DropTwice(parts: seq<string>, m: nat, n: nat)
    ensures Drop(Drop(parts, m), n) == Drop(parts, m + n)
  {
  }

  lemma {:induction false} RequestFirst(H: Hash, c: ReceiptContext)
    ensures var parts := ContextParts(H, c);
            && Part(parts, 0) == "verdifax.receipt-context.v1"
            && Request(Part(parts, 1), Part(parts, 2), Part(parts, 3), Part(parts, 4), Part(parts, 5)) == c.request
            && Drop(parts, 6) == SignatureBlock(c.signature) + AfterSignature(H, c)
  {
    hide SignatureBlock, AfterSignature;
  }

  lemma {:induction false} JobNext(H: Hash, c: ReceiptContext)
    requires JobOk(c.job)
    ensures var after := AfterSignature(H, c);
            && ReadJob(after) == c.job
            && ReadPolicies(Drop(after, if c.job.Some? then 6 else 0)) ==
                (BoundOf(H, c.policy), c.accountId, BoundOf(H, c.accountPolicy))
            && Drop(after, 0) == after
  {
    hide JobBlock, AfterJob, ReadJob, ReadPolicies, JobOk;
    ContextShape(H, c);
    JobReads(c.job, AfterJob(H, c));
    PoliciesRead(H, c);
  }

  /** And so does the text that is hashed. */
  lemma {:induction false} ContextReads(H: Hash, c: ReceiptContext)
    requires JobOk(c.job) && NulFree(ContextParts(H, c))
    ensures ReadContext(Split(ContextText(H, c), '\0')) ==
            Some(ContextRead(c.request, SeenSignature(c.signature), c.job, BoundOf(H, c.policy), c.accountId,
                BoundOf(H, c.accountPolicy)))
  {
    hide Split, Join, ReadContext, SignatureBlock, AfterSignature, JobOk, BoundOf, SeenSignature;
    SplitJoin(ContextParts(H, c), '\0');
    ContextPartsRead(H, c);
  }

  // ----- Actor sections -----

  /** How many parts the signature takes, which no tag opens: the parts after it are a job, an account or both. */
  function SignatureLength(rest: seq<string>): nat {
    if |rest| % 2 == 1 then 7
    else if |rest| == 4 || |rest| == 10 || |rest| == 12 || (|rest| == 6 && rest[4] == "account") then 4
    else 0
  }

  function ReadSection(parts: seq<string>): Option<NrepSection> {
    if Part(parts, 0) != "verdifax.nrep.section.v1" then None
    else
      var rest := Drop(parts, 5);
      var n := SignatureLength(rest);
      var after := Drop(rest, n);
      var job := ReadJob(after);
      var last := Drop(after, if job.Some? then 6 else 0);
      Some(NrepSection(Part(parts, 1), Part(parts, 2), Part(parts, 3), Part(parts, 4),
        if n == 0 then None else Some(ReadSignature(rest, n)), job,
        if Part(last, 0) == "account" then Part(last, 1) else ""))
  }

  lemma {:induction false} LengthReads(n: NrepSection)
    requires JobOk(n.job)
    ensures SignatureLength(SectionSignature(n.requestSignature) + SectionTail(n)) ==
            if n.requestSignature.None? then 0 else if n.requestSignature.value.version == "" then 4 else 7
  {
    var x, y := SectionSignature(n.requestSignature), SectionTail(n);
    SectionShape(n);
    if n.requestSignature.None? {
      assert x + y == y;
      if n.job.Some? {
        assert y[4] == Join(n.job.value.external, ',');
        HashListText(n.job.value.external, MAX_EXTERNAL);
      }
    } else if n.requestSignature.value.version == "" && |y| == 2 {
      assert (x + y)[4] == y[0];
    }
  }

  lemma {:induction false} TailReads(n: NrepSection)
    requires JobOk(n.job)
    ensures var tail := SectionTail(n);
            var last := Drop(tail, if n.job.Some? then 6 else 0);
            && ReadJob(tail) == n.job
            && (if Part(last, 0) == "account" then Part(last, 1) else "") == n.accountId
  {
    hide JobBlock, ReadJob, JobOk;
    assert OpensWithout(AccountBlock(n.accountId), "verdifax.job.v1");
    JobReads(n.job, AccountBlock(n.accountId));
    assert AccountBlock(n.accountId) + [] == AccountBlock(n.accountId);
    AccountReads(n.accountId, []);
  }

  lemma {:induction false} ActorFirst(n: NrepSection)
    ensures var parts := SectionParts(n);
            && Part(parts, 0) == "verdifax.nrep.section.v1" && Part(parts, 1) == n.actorId
            && Part(parts, 2) == n.publicKey && Part(parts, 3) == n.signature && Part(parts, 4) == n.signedAt
            && Drop(parts, 5) == SectionSignature(n.requestSignature) + SectionTail(n)
  {
    hide SectionSignature, SectionTail;
  }

  /** An actor section's parts read back as the section, signature block and all. */
  lemma {:induction false} SectionPartsRead(n: NrepSection)
    requires JobOk(n.job)
    ensures ReadSection(SectionParts(n)) == Some(SeenSection(n))
  {
    hide SectionParts, SectionTail, SignatureLength, ReadSignature, SignatureFields, SeenSignature, ReadJob, JobOk;
    ActorFirst(n);
    LengthReads(n);
    TailReads(n);
    var rest := SectionSignature(n.requestSignature) + SectionTail(n);
    if n.requestSignature.Some? {
      SignatureReads(n.requestSignature.value, SectionTail(n));
    } else {
      NoSignature();
      assert rest == SectionTail(n) && Drop(rest, 0) == rest;
    }
  }

  lemma {:induction false} SectionReads(n: NrepSection)
    requires JobOk(n.job) && NulFree(SectionParts(n))
    ensures ReadSection(Split(SectionText(n), '\0')) == Some(SeenSection(n))
  {
    hide Split, Join, ReadSection, SectionSignature, SectionTail, JobOk, SeenSection;
    SplitJoin(SectionParts(n), '\0');
    SectionPartsRead(n);
  }
}
