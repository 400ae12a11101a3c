/**
 NUL-joined preimages with optional blocks (internal/artifacts/job.go, types.go, policy_binding.go).
 A receipt context and an actor section each append a block only when the record carries it; the text
 hashed still tells which blocks are there and every field in them.
 */
module Preimages {
  import opened Text
  import opened Job

  const NUL := '\0'
  const JOB_FORMAT := "verdifax.job.v1"
  const CONTEXT_DOMAIN := "verdifax.receipt-context.v1"
  const SECTION_DOMAIN := "verdifax.nrep.section.v1"

  datatype RequestSignature = RequestSignature(publicKey: string, signature: string, signedAt: string, nonce: string,
      version: string, bodyHash: string, aiOutputHash: string)

  datatype Request = Request(payloadHash: string, programId: string, routeId: string, registryRecordHash: string,
      aiOutputHash: string)

  /** The policy a run was decided under. `inputs` is the JSON text of the policy inputs, when there are any. */
  datatype Binding = Binding(source: string, policyHash: string, documentHash: string, activationHash: string,
      outcome: string, firedRuleId: string, inputs: Option<string>)

  datatype ReceiptContext = ReceiptContext(request: Request, signature: Option<RequestSignature>, job: Option<JobLink>,
      policy: Option<Binding>, accountId: string, accountPolicy: Option<Binding>)

  datatype NrepSection = NrepSection(actorId: string, publicKey: string, signature: string, signedAt: string,
      requestSignature: Option<RequestSignature>, job: Option<JobLink>, accountId: string)

  /** SHA-256 in lowercase hex. */
  ghost predicate HexHash(H: Hash) { forall x :: ValidHash(H(x)) }

  // ----- Fields of the parts -----

  function SignatureFields(s: RequestSignature): seq<string> {
    [s.publicKey, s.signature, s.signedAt, s.nonce] + if s.version != "" then [s.version, s.bodyHash, s.aiOutputHash]
        else []
  }

  /** RequestSignature.fields. */
  method FieldsOfSignature(s: RequestSignature) returns (fields: seq<string>)
    ensures fields == SignatureFields(s)
  {
    fields := [s.publicKey, s.signature, s.signedAt, s.nonce];
    if s.version != "" {
      fields := fields + [s.version, s.bodyHash, s.aiOutputHash];
    }
  }

  function JobFields(j: JobLink): seq<string> {
    [JOB_FORMAT, j.jobId, j.stepId, Join(j.previous, ','), Join(j.external, ','), if j.final then "true" else "false"]
  }

  function LabeledFields(H: Hash, b: Binding, tag: string): seq<string> {
    [tag, b.source, b.policyHash, b.documentHash, b.activationHash, b.outcome, b.firedRuleId,
        if b.inputs.Some? then H(b.inputs.value) else ""]
  }

  // ----- Blocks: empty when the part is absent, otherwise opening with the part's tag -----

  function SignatureBlock(s: Option<RequestSignature>): seq<string> {
    if s.None? then [] else ["request_signature"] + SignatureFields(s.value)
  }

  function JobBlock(j: Option<JobLink>): seq<string> { if j.None? then [] else JobFields(j.value) }

  function BindingBlock(H: Hash, b: Option<Binding>, tag: string): seq<string> {
    if b.None? then [] else LabeledFields(H, b.value, tag)
  }

  function AccountBlock(id: string): seq<string> { if id == "" then [] else ["account", id] }

  function RequestFields(r: Request): seq<string> {
    [CONTEXT_DOMAIN, r.payloadHash, r.programId, r.routeId, r.registryRecordHash, r.aiOutputHash]
  }

  /** What follows each block of a receipt context. */
  function AfterPolicy(H: Hash, c: ReceiptContext): seq<string> {
    AccountBlock(c.accountId) + BindingBlock(H, c.accountPolicy, "account_policy")
  }

  function AfterJob(H: Hash, c: ReceiptContext): seq<string> { BindingBlock(H, c.policy, "policy") + AfterPolicy(H, c) }

  function AfterSignature(H: Hash, c: ReceiptContext): seq<string> { JobBlock(c.job) + AfterJob(H, c) }

  function ContextParts(H: Hash, c: ReceiptContext): seq<string> {
    RequestFields(c.request) + (SignatureBlock(c.signature) + AfterSignature(H, c))
  }

  function ContextText(H: Hash, c: ReceiptContext): string { Join(ContextParts(H, c), NUL) }

  lemma {:induction false} Regroup(a: seq<string>, b: seq<string>, c: seq<string>, d: seq<string>, e: seq<string>,
      f: seq<string>)
    ensures a + b + c + d + e + f == a + (b + (c + (d + (e + f))))
  {
  }

  /** ReceiptContext.Hash. */
  method ContextHash(H: Hash, c: ReceiptContext) returns (hex: string)
    ensures hex == H(ContextText(H, c))
  {
    hide Join, SignatureFields, JobFields, LabeledFields;
    var parts := [CONTEXT_DOMAIN, c.request.payloadHash, c.request.programId, c.request.routeId,
        c.request.registryRecordHash, c.request.aiOutputHash];
    ghost var p := parts;
    if c.signature.Some? {
      parts := parts + ["request_signature"];
      var fields := FieldsOfSignature(c.signature.value);
      parts := parts + fields;
    }
    assert parts == p + SignatureBlock(c.signature);
    p := parts;
    if c.job.Some? {
      parts := parts + JobFields(c.job.value);
    }
    assert parts == p + JobBlock(c.job);
    p := parts;
    if c.policy.Some? {
      parts := parts + LabeledFields(H, c.policy.value, "policy");
    }
    assert parts == p + BindingBlock(H, c.policy, "policy");
    p := parts;
    if c.accountId != "" {
      parts := parts + ["account", c.accountId];
    }
    assert parts == p + AccountBlock(c.accountId);
    p := parts;
    if c.accountPolicy.Some? {
      parts := parts + LabeledFields(H, c.accountPolicy.value, "account_policy");
    }
    assert parts == p + BindingBlock(H, c.accountPolicy, "account_policy");
    Regroup(RequestFields(c.request), SignatureBlock(c.signature), JobBlock(c.job), BindingBlock(H, c.policy, "policy"),
            AccountBlock(c.accountId), BindingBlock(H, c.accountPolicy, "account_policy"));
    hex := H(Join(parts, NUL));
  }

  function SectionFields(n: NrepSection): seq<string> {
    [SECTION_DOMAIN, n.actorId, n.publicKey, n.signature, n.signedAt]
  }

  function SectionSignature(s: Option<RequestSignature>): seq<string> {
    if s.None? then [] else SignatureFields(s.value)
  }

  function SectionTail(n: NrepSection): seq<string> { JobBlock(n.job) + AccountBlock(n.accountId) }

  function SectionParts(n: NrepSection): seq<string> {
    SectionFields(n) + (SectionSignature(n.requestSignature) + SectionTail(n))
  }

  function SectionText(n: NrepSection): string { Join(SectionParts(n), NUL) }

  /** nullJoinHash. */
  function NullJoinHash(H: Hash, domain: string, fields: seq<string>): string { H(Join([domain] + fields, NUL)) }

  /** NrepSection.SectionHash. */
  method SectionHash(H: Hash, n: NrepSection) returns (hex: string)
    ensures hex == H(SectionText(n))
  {
    hide Join, SignatureFields, JobFields;
    var fields := [n.actorId, n.publicKey, n.signature, n.signedAt];
    ghost var domain := [SECTION_DOMAIN];
    assert domain + fields == SectionFields(n);
    if n.requestSignature.None? && n.job.None? && n.accountId == "" {
      PlainSection(n);
      return NullJoinHash(H, SECTION_DOMAIN, fields);
    }
    ghost var p := fields;
    if n.requestSignature.Some? {
      var signed := FieldsOfSignature(n.requestSignature.value);
      fields := fields + signed;
    }
    assert fields == p + SectionSignature(n.requestSignature);
    p := fields;
    if n.job.Some? {
      fields := fields + JobFields(n.job.value);
    }
    assert fields == p + JobBlock(n.job);
    p := fields;
    if n.accountId != "" {
      fields := fields + ["account", n.accountId];
    }
    assert fields == p + AccountBlock(n.accountId);
    SectionRegroup(n);
    hex := NullJoinHash(H, SECTION_DOMAIN, fields);
  }

  lemma {:induction false} PlainSection(n: NrepSection)
    requires n.requestSignature.None? && n.job.None? && n.accountId == ""
    ensures SectionParts(n) == SectionFields(n)
  {
  }

  lemma {:induction false} SectionRegroup(n: NrepSection)
    ensures [SECTION_DOMAIN]
        + ([n.actorId, n.publicKey, n.signature, n.signedAt] + SectionSignature(n.requestSignature) + JobBlock(n.job)
        + AccountBlock(n.accountId))
         == SectionParts(n)
  {
    hide SectionSignature, JobBlock, AccountBlock;
    assert [SECTION_DOMAIN] + [n.actorId, n.publicKey, n.signature, n.signedAt] == SectionFields(n);
  }

  // ----- What a hash covers -----

  /** A version 1 signature leaves its body and AI-output hashes out. */
  function SeenSignature(s: Option<RequestSignature>): Option<RequestSignature> {
    if s.Some? && s.value.version == "" then Some(s.value.(bodyHash := "", aiOutputHash := "")) else s
  }

  function SeenContext(c: ReceiptContext): ReceiptContext { c.(signature := SeenSignature(c.signature)) }

  function SeenSection(n: NrepSection): NrepSection { n.(requestSignature := SeenSignature(n.requestSignature)) }

  ghost predicate JobOk(j: Option<JobLink>) { j.Some? ==> Valid(j.value) }

  /** The policy inputs' texts, hashed inside the preimage. */
  ghost function InputTexts(b: Option<Binding>): set<string> {
    if b.Some? && b.value.inputs.Some? then {b.value.inputs.value} else {}
  }

  ghost function ContextTexts(H: Hash, c: ReceiptContext): set<string> {
    {ContextText(H, c)} + InputTexts(c.policy) + InputTexts(c.accountPolicy)
  }

  // ----- Reading the blocks back -----

  ghost predicate OpensWithout(s: seq<string>, tag: string) { s == [] || s[0] != tag }

  /** An optional block is there or not, and where it ends, in one way. */
  lemma {:induction false} BlockUnique(x: seq<string>, s: seq<string>, y: seq<string>, t: seq<string>, tag: string)
    requires (x != [] ==> x[0] == tag) && (y != [] ==> y[0] == tag)
    requires OpensWithout(s, tag) && OpensWithout(t, tag)
    requires x != [] && y != [] ==> |x| == |y|
    requires x + s == y + t
    ensures x == y && s == t
  {
    assert x != [] ==> (x + s)[0] == x[0];
    assert y != [] ==> (y + t)[0] == y[0];
    assert x == [] ==> x + s == s;
    assert y == [] ==> y + t == t;
    if x != [] && y != [] { PrefixUnique(x, s, y, t); }
  }

  lemma {:induction false} HashListUnique(a: seq<string>, b: seq<string>, limit: nat)
    requires ValidHashList(a, limit) && ValidHashList(b, limit) && Join(a, ',') == Join(b, ',')
    ensures a == b
  {
    HashListText(a, limit);
    HashListText(b, limit);
    if a != [] && b != [] { JoinInjective(a, b, ','); }
  }

  lemma {:induction false} HashListText(a: seq<string>, limit: nat)
    requires ValidHashList(a, limit)
    ensures AllFree(a, ',') && (a == [] <==> Join(a, ',') == "") && (a != [] ==> |Join(a, ',')| >= 64)
  {
    if a != [] { assert a[0] in a; }
  }

  lemma {:induction false} JobUnique(a: Option<JobLink>, b: Option<JobLink>)
    requires JobOk(a) && JobOk(b) && JobBlock(a) == JobBlock(b)
    ensures a == b
  {
    if a.Some? && b.Some? {
      var f, g := JobFields(a.value), JobFields(b.value);
      assert f[1] == g[1] && f[2] == g[2] && f[3] == g[3] && f[4] == g[4] && f[5] == g[5];
      HashListUnique(a.value.previous, b.value.previous, MAX_PREVIOUS);
      HashListUnique(a.value.external, b.value.external, MAX_EXTERNAL);
    }
  }

  lemma {:induction false} SignatureUnique(a: RequestSignature, b: RequestSignature)
    requires SignatureFields(a) == SignatureFields(b)
    ensures SeenSignature(Some(a)) == SeenSignature(Some(b))
  {
    var f, g := SignatureFields(a), SignatureFields(b);
    assert |f| == if a.version == "" then 4 else 7;
    assert |g| == if b.version == "" then 4 else 7;
    assert f[0] == g[0] && f[1] == g[1] && f[2] == g[2] && f[3] == g[3];
    if a.version != "" { assert f[4] == g[4] && f[5] == g[5] && f[6] == g[6]; }
  }

  lemma {:induction false} BindingUnique(H: Hash, a: Option<Binding>, b: Option<Binding>, tag: string, S: set<string>)
    requires HexHash(H) && InjectiveOn(H, S) && InputTexts(a) <= S && InputTexts(b) <= S
    requires BindingBlock(H, a, tag) == BindingBlock(H, b, tag)
    ensures a == b
  {
    if a.Some? && b.Some? {
      var f, g := LabeledFields(H, a.value, tag), LabeledFields(H, b.value, tag);
      assert f[1] == g[1] && f[2] == g[2] && f[3] == g[3] && f[4] == g[4] && f[5] == g[5] && f[6] == g[6]
          && f[7] == g[7];
      InputsUnique(H, a.value.inputs, b.value.inputs, S);
    }
  }

  lemma {:induction false} InputsUnique(H: Hash, a: Option<string>, b: Option<string>, S: set<string>)
    requires HexHash(H) && InjectiveOn(H, S) && (a.Some? ==> a.value in S) && (b.Some? ==> b.value in S)
    requires (if a.Some? then H(a.value) else "") == if b.Some? then H(b.value) else ""
    ensures a == b
  {
    if a.Some? { assert ValidHash(H(a.value)); }
    if b.Some? { assert ValidHash(H(b.value)); }
    if a.Some? && b.Some? { assert SameDigest(H, a.value, b.value); }
  }

  /** After the signature every block has an even number of parts. */
  ghost function HalfAfterSignature(c: ReceiptContext): nat {
    (if c.job.Some? then 3 else 0) + (if c.policy.Some? then 4 else 0) + (if c.accountId != "" then 1 else 0)
        + if c.accountPolicy.Some? then 4 else 0
  }

  /** How each stretch of parts opens. */
  lemma {:induction false} ContextShape(H: Hash, c: ReceiptContext)
    ensures OpensWithout(AfterSignature(H, c), "request_signature")
    ensures OpensWithout(AfterJob(H, c), JOB_FORMAT)
    ensures OpensWithout(AfterPolicy(H, c), "policy")
    ensures OpensWithout(BindingBlock(H, c.accountPolicy, "account_policy"), "account")
    ensures |AfterSignature(H, c)| == HalfAfterSignature(c) + HalfAfterSignature(c)
    ensures c.signature.Some? ==> |SignatureBlock(c.signature)| == if c.signature.value.version == "" then 5 else 8
  {
  }

  /** A signature block and the even tail after it split one way: its own length is odd exactly for version 1. */
  lemma {:induction false} SignatureSplit(H: Hash, c: ReceiptContext, d: ReceiptContext)
    requires SignatureBlock(c.signature) + AfterSignature(H, c) == SignatureBlock(d.signature) + AfterSignature(H, d)
    ensures SignatureBlock(c.signature) == SignatureBlock(d.signature) && AfterSignature(H, c) == AfterSignature(H, d)
  {
    hide AfterSignature, SignatureFields, HalfAfterSignature;
    ContextShape(H, c);
    ContextShape(H, d);
    var x, y := SignatureBlock(c.signature), SignatureBlock(d.signature);
    assert |x + AfterSignature(H, c)| == |y + AfterSignature(H, d)|;
    BlockUnique(x, AfterSignature(H, c), y, AfterSignature(H, d), "request_signature");
  }

  lemma {:induction false} BlockShapes(H: Hash, j: Option<JobLink>, b: Option<Binding>, tag: string, id: string)
    ensures JobBlock(j) != [] ==> |JobBlock(j)| == 6 && JobBlock(j)[0] == JOB_FORMAT
    ensures BindingBlock(H, b, tag) != [] ==> |BindingBlock(H, b, tag)| == 8 && BindingBlock(H, b, tag)[0] == tag
    ensures AccountBlock(id) != [] ==> |AccountBlock(id)| == 2 && AccountBlock(id)[0] == "account"
  {
  }

  lemma {:induction false} AfterSignatureUnique(H: Hash, c: ReceiptContext, d: ReceiptContext)
    requires AfterSignature(H, c) == AfterSignature(H, d)
    ensures JobBlock(c.job) == JobBlock(d.job)
    ensures BindingBlock(H, c.policy, "policy") == BindingBlock(H, d.policy, "policy")
    ensures AccountBlock(c.accountId) == AccountBlock(d.accountId)
    ensures BindingBlock(H, c.accountPolicy, "account_policy") == BindingBlock(H, d.accountPolicy, "account_policy")
  {
    hide JobBlock, BindingBlock, AccountBlock, HalfAfterSignature, SignatureBlock, OpensWithout;
    ContextShape(H, c);
    ContextShape(H, d);
    BlockShapes(H, c.job, c.policy, "policy", c.accountId);
    BlockShapes(H, d.job, d.policy, "policy", d.accountId);
    BlockUnique(JobBlock(c.job), AfterJob(H, c), JobBlock(d.job), AfterJob(H, d), JOB_FORMAT);
    BlockUnique(BindingBlock(H, c.policy, "policy"), AfterPolicy(H, c), BindingBlock(H, d.policy, "policy"),
        AfterPolicy(H, d), "policy");
    BlockUnique(AccountBlock(c.accountId), BindingBlock(H, c.accountPolicy, "account_policy"),
                AccountBlock(d.accountId), BindingBlock(H, d.accountPolicy, "account_policy"), "account");
  }

  lemma {:induction false} ContextPartsUnique(H: Hash, c: ReceiptContext, d: ReceiptContext, S: set<string>)
    requires HexHash(H) && InjectiveOn(H, S) && ContextTexts(H, c) + ContextTexts(H, d) <= S
    requires JobOk(c.job) && JobOk(d.job) && ContextParts(H, c) == ContextParts(H, d)
    ensures SeenContext(c) == SeenContext(d)
  {
    hide AfterSignature, SignatureFields, JobBlock, BindingBlock, LabeledFields, ContextText, HexHash, InjectiveOn,
        Valid;
    PrefixUnique(RequestFields(c.request), SignatureBlock(c.signature) + AfterSignature(H, c),
        RequestFields(d.request), SignatureBlock(d.signature) + AfterSignature(H, d));
    RequestUnique(c.request, d.request);
    SignatureSplit(H, c, d);
    SignatureBlockUnique(c.signature, d.signature);
    AfterSignatureUnique(H, c, d);
    JobUnique(c.job, d.job);
    BindingUnique(H, c.policy, d.policy, "policy", S);
    BindingUnique(H, c.accountPolicy, d.accountPolicy, "account_policy", S);
    AccountUnique(c.accountId, d.accountId);
  }

  lemma {:induction false} RequestUnique(a: Request, b: Request)
    requires RequestFields(a) == RequestFields(b)
    ensures a == b
  {
    var f, g := RequestFields(a), RequestFields(b);
    assert f[1] == g[1] && f[2] == g[2] && f[3] == g[3] && f[4] == g[4] && f[5] == g[5];
  }

  lemma {:induction false} SignatureBlockUnique(a: Option<RequestSignature>, b: Option<RequestSignature>)
    requires SignatureBlock(a) == SignatureBlock(b)
    ensures SeenSignature(a) == SeenSignature(b)
  {
    hide SignatureFields, SeenSignature;
    if a.Some? && b.Some? {
      assert SignatureBlock(a)[1..] == SignatureFields(a.value) && SignatureBlock(b)[1..] == SignatureFields(b.value);
      SignatureUnique(a.value, b.value);
    }
  }

  lemma {:induction false} AccountUnique(a: string, b: string)
    requires AccountBlock(a) == AccountBlock(b)
    ensures a == b
  {
    if a != "" { assert AccountBlock(a)[1] == AccountBlock(b)[1]; }
  }

  /** The parts a record is hashed from hold no NUL, as strict reading ensures. */
  ghost predicate NulFree(parts: seq<string>) { AllFree(parts, NUL) }

  /** A receipt context's hash fixes the context: which blocks it has and every field in them. */
  lemma {:induction false} ContextHashUnique(H: Hash, c: ReceiptContext, d: ReceiptContext)
    requires HexHash(H) && InjectiveOn(H, ContextTexts(H, c) + ContextTexts(H, d))
    requires JobOk(c.job) && JobOk(d.job) && NulFree(ContextParts(H, c)) && NulFree(ContextParts(H, d))
    ensures H(ContextText(H, c)) == H(ContextText(H, d)) <==> SeenContext(c) == SeenContext(d)
  {
    hide Join, InjectiveOn, HexHash, Valid, NulFree;
    if H(ContextText(H, c)) == H(ContextText(H, d)) {
      SameText(H, ContextText(H, c), ContextText(H, d), ContextTexts(H, c) + ContextTexts(H, d));
      PartsOf(ContextParts(H, c), ContextParts(H, d));
      ContextPartsUnique(H, c, d, ContextTexts(H, c) + ContextTexts(H, d));
    }
  }

  // ----- The actor section: its signature block has no tag of its own -----

  ghost function HalfTail(n: NrepSection): nat { (if n.job.Some? then 3 else 0) + if n.accountId != "" then 1 else 0 }

  lemma {:induction false} SectionShape(n: NrepSection)
    ensures |SectionTail(n)| == HalfTail(n) + HalfTail(n)
    ensures |SectionSignature(n.requestSignature)| ==
            if n.requestSignature.None? then 0 else if n.requestSignature.value.version == "" then 4 else 7
  {
  }

  /**
   The one length at which sections with and without a signature meet: six more parts, a job or a version 1
   signature and an account. The fifth is then both a list of hashes and the word "account".
   */
  lemma {:induction false} JobIsNotSignatureAndAccount(n: NrepSection, m: NrepSection)
    requires JobOk(n.job) && n.requestSignature.None? && m.requestSignature.Some?
        && m.requestSignature.value.version == ""
    ensures SectionTail(n) != SectionSignature(m.requestSignature) + SectionTail(m)
  {
    SectionShape(n);
    SectionShape(m);
    if |SectionTail(n)| == 4 + |SectionTail(m)| {
      assert n.job.Some? && n.accountId == "" && m.job.None? && m.accountId != "";
      assert SectionTail(n)[4] == Join(n.job.value.external, ',');
      assert (SectionSignature(m.requestSignature) + SectionTail(m))[4] == SectionTail(m)[0] == "account";
      HashListText(n.job.value.external, MAX_EXTERNAL);
    }
  }

  lemma {:induction false} SectionSplit(n: NrepSection, m: NrepSection)
    requires JobOk(n.job) && JobOk(m.job)
    requires SectionSignature(n.requestSignature) + SectionTail(n) == SectionSignature(m.requestSignature)
        + SectionTail(m)
    ensures SectionSignature(n.requestSignature) == SectionSignature(m.requestSignature)
        && SectionTail(n) == SectionTail(m)
  {
    hide SectionTail, SignatureFields, HalfTail, JobOk;
    SectionShape(n);
    SectionShape(m);
    var x, y := SectionSignature(n.requestSignature), SectionSignature(m.requestSignature);
    assert |x + SectionTail(n)| == |y + SectionTail(m)|;
    assert |x| == 0 ==> x + SectionTail(n) == SectionTail(n);
    assert |y| == 0 ==> y + SectionTail(m) == SectionTail(m);
    if |x| == 0 && |y| == 4 { JobIsNotSignatureAndAccount(n, m); }
    if |x| == 4 && |y| == 0 { JobIsNotSignatureAndAccount(m, n); }
    PrefixUnique(x, SectionTail(n), y, SectionTail(m));
  }

  lemma {:induction false} SectionPartsUnique(n: NrepSection, m: NrepSection)
    requires JobOk(n.job) && JobOk(m.job) && SectionParts(n) == SectionParts(m)
    ensures SeenSection(n) == SeenSection(m)
  {
    hide SectionSignature, SignatureFields, SeenSignature, JobBlock, AccountBlock, Valid;
    PrefixUnique(SectionFields(n), SectionSignature(n.requestSignature) + SectionTail(n), SectionFields(m),
        SectionSignature(m.requestSignature) + SectionTail(m));
    ActorUnique(n, m);
    SectionSplit(n, m);
    SectionSignatureUnique(n.requestSignature, m.requestSignature);
    TailUnique(n, m);
    JobUnique(n.job, m.job);
    AccountUnique(n.accountId, m.accountId);
  }

  lemma {:induction false} TailUnique(n: NrepSection, m: NrepSection)
    requires SectionTail(n) == SectionTail(m)
    ensures JobBlock(n.job) == JobBlock(m.job) && AccountBlock(n.accountId) == AccountBlock(m.accountId)
  {
    BlockUnique(JobBlock(n.job), AccountBlock(n.accountId), JobBlock(m.job), AccountBlock(m.accountId), JOB_FORMAT);
  }

  lemma {:induction false} ActorUnique(n: NrepSection, m: NrepSection)
    requires SectionFields(n) == SectionFields(m)
    ensures n.actorId == m.actorId && n.publicKey == m.publicKey && n.signature == m.signature
        && n.signedAt == m.signedAt
  {
    var f, g := SectionFields(n), SectionFields(m);
    assert f[1] == g[1] && f[2] == g[2] && f[3] == g[3] && f[4] == g[4];
  }

  lemma {:induction false} SectionSignatureUnique(a: Option<RequestSignature>, b: Option<RequestSignature>)
    requires SectionSignature(a) == SectionSignature(b)
    ensures SeenSignature(a) == SeenSignature(b)
  {
    if a.Some? && b.Some? { SignatureUnique(a.value, b.value); }
  }

  /** The actor section's hash fixes the section: which blocks it has and every field in them. */
  lemma {:induction false} SectionHashUnique(H: Hash, n: NrepSection, m: NrepSection)
    requires InjectiveOn(H, {SectionText(n), SectionText(m)})
    requires JobOk(n.job) && JobOk(m.job) && NulFree(SectionParts(n)) && NulFree(SectionParts(m))
    ensures H(SectionText(n)) == H(SectionText(m)) <==> SeenSection(n) == SeenSection(m)
  {
    hide Join, InjectiveOn, Valid, NulFree;
    if H(SectionText(n)) == H(SectionText(m)) {
      SameText(H, SectionText(n), SectionText(m), {SectionText(n), SectionText(m)});
      PartsOf(SectionParts(n), SectionParts(m));
      SectionPartsUnique(n, m);
    }
  }

  lemma {:induction false} SameText(H: Hash, x: string, y: string, S: set<string>)
    requires InjectiveOn(H, S) && x in S && y in S && H(x) == H(y)
    ensures x == y
  {
    assert SameDigest(H, x, y);
  }

  lemma {:induction false} PartsOf(a: seq<string>, b: seq<string>)
    requires |a| >= 1 && |b| >= 1 && NulFree(a) && NulFree(b) && Join(a, NUL) == Join(b, NUL)
    ensures a == b
  {
    JoinInjective(a, b, NUL);
  }
}
