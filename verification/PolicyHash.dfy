/**
 The preimage a policy hash is taken over (internal/policyhash/policyhash.go). It leaves out rule names,
 priorities, metadata, tags, signature bytes and times, empty parts and the fields a condition's type does
 not use. What it keeps is pinned down exactly, and is enough to fix every decision.
 */
module PolicyHash {
  import opened Text
  import opened CanonicalJson
  import opened Policy
  import opened Decide

  // ----- The preimage -----

  function Strings(xs: seq<string>): Json { Arr(seq(|xs|, i requires 0 <= i < |xs| => Str(xs[i]))) }

  /** Adds a member only under a condition. */
  function Put(m: map<string, Json>, present: bool, key: string, value: Json): map<string, Json> {
    if present then m[key := value] else m
  }

  function MatcherJson(m: Matcher): Json {
    var out := map["operator" := Str(m.operator)];
    Obj(Put(Put(out, m.value != "", "value", Str(m.value)), m.values != [], "values", Strings(m.values)))
  }

  function SubjectJson(s: Subject): Json {
    var out := map["id_match" := MatcherJson(s.idMatch), "type" := Str(s.kind)];
    Obj(if s.roleMatch.Some? then out["role_match" := MatcherJson(s.roleMatch.value)] else out)
  }

  function TargetJson(o: Target): Json {
    var out := map["id_match" := MatcherJson(o.idMatch), "type" := Str(o.kind)];
    Obj(Put(Put(out, o.classMax != "", "classification_max", Str(o.classMax)),
            o.classMin != "", "classification_min", Str(o.classMin)))
  }

  function ConditionJson(c: Condition): Json {
    Obj(map["type" := Str(c.kind)] +
        (if c.kind == "rate_limit" then
           map["max_per_window" := Num(c.maxPerWindow), "window_seconds" := Num(c.windowSeconds)]
         else if c.kind == "time_window" then map["start_utc" := Str(c.startUtc), "end_utc" := Str(c.endUtc)]
         else if c.kind == "mfa_required" then map["required" := Bool(c.required)]
         else if c.kind == "min_session_age" then map["seconds" := Num(c.seconds)]
         else if c.kind == "requires_role" then map["role" := Str(c.role)]
         else map[]))
  }

  function ConditionsJson(cs: seq<Condition>): Json { Arr(seq(|cs|, i requires 0 <= i < |cs| => ConditionJson(cs[i]))) }

  function RuleJson(r: Rule): Json {
    var out := map["effect" := Str(r.effect), "object" := TargetJson(r.target), "rule_id" := Str(r.ruleId),
                   "subject" := SubjectJson(r.subject), "verb" := Obj(map["match" := MatcherJson(r.verb)])];
    Obj(Put(Put(out, r.conditions != [], "conditions", ConditionsJson(r.conditions)),
            r.reasonOverride != "", "reason_code", Str(r.reasonOverride)))
  }

  function RulesJson(rs: seq<Rule>): Json { Arr(seq(|rs|, i requires 0 <= i < |rs| => RuleJson(rs[i]))) }

  function SignerJson(s: Signer): Json {
    Obj(map["key_algorithm" := Str(s.keyAlgorithm), "key_fingerprint" := Str(s.keyFingerprint),
        "signer_id" := Str(s.signerId)])
  }

  function SignersJson(ss: seq<Signer>): Json { Arr(seq(|ss|, i requires 0 <= i < |ss| => SignerJson(ss[i]))) }

  function SignaturePolicyJson(sp: SignaturePolicy): Json {
    var out := map["type" := Str(sp.kind)];
    Obj(Put(Put(out, sp.threshold > 0, "threshold", Num(sp.threshold)), sp.required != [], "required",
        Strings(sp.required)))
  }

  function BasicMembers(p: Policy): map<string, Json> {
    map["default_effect" := Str(p.defaultEffect), "effective_at" := Str(p.effectiveAt), "policy_id" := Str(p.policyId),
        "policy_name" := Str(p.name), "policy_version" := Str(p.version), "rules" := RulesJson(p.rules),
        "schema" := Str(p.schema)]
  }

  function PolicyMembers(p: Policy): map<string, Json> {
    var m0 := BasicMembers(p);
    var m1 := if p.signaturePolicy.Some? then m0["signature_policy" := SignaturePolicyJson(p.signaturePolicy.value)]
        else m0;
    var m2 := Put(m1, p.signers != [], "signers", SignersJson(p.signers));
    var m3 := Put(m2, p.requiredAttested != [], "required_attested_fields", Strings(p.requiredAttested));
    var m4 := Put(m3, p.requiredOutcome != [], "required_outcome_fields", Strings(p.requiredOutcome));
    Put(m4, p.profileTag != "", "profile_tag", Str(p.profileTag))
  }

  function PolicyJson(p: Policy): Json { Obj(PolicyMembers(p)) }

  // ----- The builders -----

  method ConditionPreimages(conditions: seq<Condition>) returns (v: Json)
    ensures v == ConditionsJson(conditions)
  {
    var out: seq<Json> := [];
    for i := 0 to |conditions|
      invariant |out| == i && forall k :: 0 <= k < i ==> out[k] == ConditionJson(conditions[k])
    {
      out := out + [ConditionJson(conditions[i])];
    }
    assert out == ConditionsJson(conditions).items;
    return Arr(out);
  }

  /** ruleHashPreimage */
  method RulePreimage(r: Rule) returns (v: Json)
    ensures v == RuleJson(r)
  {
    hide TargetJson, SubjectJson, MatcherJson, ConditionsJson;
    var out := map["effect" := Str(r.effect), "object" := TargetJson(r.target), "rule_id" := Str(r.ruleId),
                   "subject" := SubjectJson(r.subject), "verb" := Obj(map["match" := MatcherJson(r.verb)])];
    if |r.conditions| > 0 {
      var conditions := ConditionPreimages(r.conditions);
      out := out["conditions" := conditions];
    }
    if r.reasonOverride != "" {
      out := out["reason_code" := Str(r.reasonOverride)];
    }
    return Obj(out);
  }

  method RulePreimages(rules: seq<Rule>) returns (v: Json)
    ensures v == RulesJson(rules)
  {
    hide RuleJson;
    var out: seq<Json> := [];
    for i := 0 to |rules|
      invariant |out| == i && forall k :: 0 <= k < i ==> out[k] == RuleJson(rules[k])
    {
      var rule := RulePreimage(rules[i]);
      out := out + [rule];
    }
    assert out == RulesJson(rules).items;
    return Arr(out);
  }

  method SignerPreimages(signers: seq<Signer>) returns (v: Json)
    ensures v == SignersJson(signers)
  {
    hide SignerJson;
    var out: seq<Json> := [];
    for i := 0 to |signers|
      invariant |out| == i && forall k :: 0 <= k < i ==> out[k] == SignerJson(signers[k])
    {
      out := out + [SignerJson(signers[i])];
    }
    assert out == SignersJson(signers).items;
    return Arr(out);
  }

  /** canonicalPolicyForHash: optional parts are added only when present. */
  method CanonicalPolicyForHash(p: Policy) returns (v: Json)
    ensures v == PolicyJson(p)
  {
    hide RulesJson, SignersJson, SignaturePolicyJson, Strings;
    var rules := RulePreimages(p.rules);
    var out := map["default_effect" := Str(p.defaultEffect), "effective_at" := Str(p.effectiveAt),
        "policy_id" := Str(p.policyId), "policy_name" := Str(p.name), "policy_version" := Str(p.version),
        "rules" := rules, "schema" := Str(p.schema)];
    if p.signaturePolicy.Some? {
      out := out["signature_policy" := SignaturePolicyJson(p.signaturePolicy.value)];
    }
    if |p.signers| > 0 {
      var signers := SignerPreimages(p.signers);
      out := out["signers" := signers];
    }
    if |p.requiredAttested| > 0 {
      out := out["required_attested_fields" := Strings(p.requiredAttested)];
    }
    if |p.requiredOutcome| > 0 {
      out := out["required_outcome_fields" := Strings(p.requiredOutcome)];
    }
    if p.profileTag != "" {
      out := out["profile_tag" := Str(p.profileTag)];
    }
    return Obj(out);
  }

  /** canonicalSHA256 over the preimage. */
  method PolicyHashOf(H: Hash, p: Policy) returns (hash: string)
    ensures hash == H(Canon(PolicyJson(p)))
  {
    hide PolicyJson, Canon;
    var v := CanonicalPolicyForHash(p);
    var w := new Buffer();
    WriteCanonical(w, v);
    assert "" + Canon(v) == Canon(v);
    return H(w.text);
  }

  // ----- What the hash sees -----

  /** A condition with the fields of other types cleared. */
  function SeenCondition(c: Condition): Condition {
    var rate, window := c.kind == "rate_limit", c.kind == "time_window";
    Condition(c.kind, if rate then c.maxPerWindow else 0, if rate then c.windowSeconds else 0,
              if window then c.startUtc else "", if window then c.endUtc else "",
              c.kind == "mfa_required" && c.required, if c.kind == "min_session_age" then c.seconds else 0,
              if c.kind == "requires_role" then c.role else "")
  }

  function SeenConditions(cs: seq<Condition>): seq<Condition> {
    seq(|cs|, i requires 0 <= i < |cs| => SeenCondition(cs[i]))
  }

  function SeenRule(r: Rule): Rule { r.(ruleName := "", priority := 0, conditions := SeenConditions(r.conditions)) }

  function SeenRules(rs: seq<Rule>): seq<Rule> { seq(|rs|, i requires 0 <= i < |rs| => SeenRule(rs[i])) }

  function SeenSigner(s: Signer): Signer { s.(signature := "", signedAt := "") }

  function SeenSigners(ss: seq<Signer>): seq<Signer> { seq(|ss|, i requires 0 <= i < |ss| => SeenSigner(ss[i])) }

  function SeenSignaturePolicy(sp: SignaturePolicy): SignaturePolicy {
    if sp.threshold > 0 then sp else sp.(threshold := 0)
  }

  function SeenPolicy(p: Policy): Policy {
    p.(rules := SeenRules(p.rules), metadata := map[], tags := [], signers := SeenSigners(p.signers),
       signaturePolicy := if p.signaturePolicy.Some? then Some(SeenSignaturePolicy(p.signaturePolicy.value)) else None)
  }

  lemma {:induction false} StringsInjective(v: seq<string>, w: seq<string>)
    requires Strings(v) == Strings(w)
    ensures v == w
  {
    assert |v| == |Strings(v).items|;
    forall i | 0 <= i < |v| ensures v[i] == w[i] { assert Strings(v).items[i] == Str(v[i]); }
  }

  lemma {:induction false} MemberSame(p: bool, a: Json, q: bool, b: Json, key: string, m: map<string, Json>,
      n: map<string, Json>)
    requires (key in m <==> p) && (p ==> m[key] == a) && (key in n <==> q) && (q ==> n[key] == b) && m == n
    ensures p == q && (p ==> a == b)
  {
  }

  lemma {:induction false} MatcherInjective(a: Matcher, b: Matcher)
    requires MatcherJson(a) == MatcherJson(b)
    ensures a == b
  {
    var x, y := MatcherJson(a).members, MatcherJson(b).members;
    assert x["operator"] == Str(a.operator) && y["operator"] == Str(b.operator);
    MemberSame(a.value != "", Str(a.value), b.value != "", Str(b.value), "value", x, y);
    MemberSame(a.values != [], Strings(a.values), b.values != [], Strings(b.values), "values", x, y);
    if a.values != [] { StringsInjective(a.values, b.values); }
  }

  lemma {:induction false} SubjectInjective(a: Subject, b: Subject)
    requires SubjectJson(a) == SubjectJson(b)
    ensures a == b
  {
    hide MatcherJson;
    var x, y := SubjectJson(a).members, SubjectJson(b).members;
    assert x["id_match"] == MatcherJson(a.idMatch) && x["type"] == Str(a.kind) && y["type"] == Str(b.kind);
    assert "role_match" in x <==> a.roleMatch.Some?;
    assert "role_match" in y <==> b.roleMatch.Some?;
    MatcherInjective(a.idMatch, b.idMatch);
    if a.roleMatch.Some? {
      assert x["role_match"] == MatcherJson(a.roleMatch.value);
      MatcherInjective(a.roleMatch.value, b.roleMatch.value);
    }
  }

  lemma {:induction false} TargetInjective(a: Target, b: Target)
    requires TargetJson(a) == TargetJson(b)
    ensures a == b
  {
    hide MatcherJson;
    var x, y := TargetJson(a).members, TargetJson(b).members;
    assert x["id_match"] == MatcherJson(a.idMatch) && x["type"] == Str(a.kind) && y["type"] == Str(b.kind);
    MatcherInjective(a.idMatch, b.idMatch);
    MemberSame(a.classMax != "", Str(a.classMax), b.classMax != "", Str(b.classMax), "classification_max", x, y);
    MemberSame(a.classMin != "", Str(a.classMin), b.classMin != "", Str(b.classMin), "classification_min", x, y);
  }

  /** Equal preimages agree on the type and the fields that type uses. */
  lemma {:induction false} ConditionFields(a: Condition, b: Condition)
    requires ConditionJson(a) == ConditionJson(b)
    ensures a.kind == b.kind && SeenCondition(a) == SeenCondition(b)
  {
    var x, y := ConditionJson(a).members, ConditionJson(b).members;
    assert x["type"] == Str(a.kind) && y["type"] == Str(b.kind);
    if a.kind == "rate_limit" {
      assert x["max_per_window"] == Num(a.maxPerWindow) && x["window_seconds"] == Num(a.windowSeconds);
      assert y["max_per_window"] == Num(b.maxPerWindow) && y["window_seconds"] == Num(b.windowSeconds);
    } else if a.kind == "time_window" {
      assert x["start_utc"] == Str(a.startUtc) && x["end_utc"] == Str(a.endUtc);
      assert y["start_utc"] == Str(b.startUtc) && y["end_utc"] == Str(b.endUtc);
    } else if a.kind == "mfa_required" {
      assert x["required"] == Bool(a.required) && y["required"] == Bool(b.required);
    } else if a.kind == "min_session_age" {
      assert x["seconds"] == Num(a.seconds) && y["seconds"] == Num(b.seconds);
    } else if a.kind == "requires_role" {
      assert x["role"] == Str(a.role) && y["role"] == Str(b.role);
    }
  }

  /** A condition's preimage is that of what it sees. */
  lemma {:induction false} SeenSameJson(c: Condition)
    ensures ConditionJson(SeenCondition(c)) == ConditionJson(c)
  {
  }

  lemma {:induction false} ConditionSeen(a: Condition, b: Condition)
    ensures ConditionJson(a) == ConditionJson(b) <==> SeenCondition(a) == SeenCondition(b)
  {
    hide ConditionJson, SeenCondition;
    SeenSameJson(a);
    SeenSameJson(b);
    if ConditionJson(a) == ConditionJson(b) { ConditionFields(a, b); }
  }

  lemma {:induction false} ConditionsSeen(a: seq<Condition>, b: seq<Condition>)
    ensures ConditionsJson(a) == ConditionsJson(b) <==> SeenConditions(a) == SeenConditions(b)
  {
    hide ConditionJson, SeenCondition;
    var x, y, u, v := ConditionsJson(a).items, ConditionsJson(b).items, SeenConditions(a), SeenConditions(b);
    if |a| == |b| {
      forall i | 0 <= i < |a| ensures x[i] == y[i] <==> u[i] == v[i] { ConditionSeen(a[i], b[i]); }
    }
  }

  lemma {:induction false} RuleSeen(a: Rule, b: Rule)
    ensures RuleJson(a) == RuleJson(b) <==> SeenRule(a) == SeenRule(b)
  {
    hide TargetJson, SubjectJson, MatcherJson, ConditionsJson, SeenConditions;
    EmptyConditions(a.conditions, b.conditions);
    ConditionsSeen(a.conditions, b.conditions);
    if RuleJson(a) == RuleJson(b) {
      hide RuleJson;
      RuleMembersAre(a);
      RuleMembersAre(b);
      TargetInjective(a.target, b.target);
      SubjectInjective(a.subject, b.subject);
      MatcherInjective(a.verb, b.verb);
    }
  }

  lemma {:induction false} RuleMembersAre(r: Rule)
    ensures RuleJson(r).Obj?
    ensures var x := RuleJson(r).members;
            && "effect" in x && x["effect"] == Str(r.effect) && "rule_id" in x && x["rule_id"] == Str(r.ruleId)
            && "object" in x && x["object"] == TargetJson(r.target) && "subject" in x
                && x["subject"] == SubjectJson(r.subject)
            && "verb" in x && x["verb"].Obj? && "match" in x["verb"].members
                && x["verb"].members["match"] == MatcherJson(r.verb)
            && ("conditions" in x <==> r.conditions != [])
                && (r.conditions != [] ==> x["conditions"] == ConditionsJson(r.conditions))
            && ("reason_code" in x <==> r.reasonOverride != "")
                && (r.reasonOverride != "" ==> x["reason_code"] == Str(r.reasonOverride))
  {
    hide TargetJson, SubjectJson, MatcherJson, ConditionsJson;
  }

  lemma {:induction false} EmptyConditions(a: seq<Condition>, b: seq<Condition>)
    ensures |SeenConditions(a)| == |a| && |SeenConditions(b)| == |b|
    ensures a == [] && b == [] ==> SeenConditions(a) == SeenConditions(b)
  {
  }

  lemma {:induction false} RulesSeen(a: seq<Rule>, b: seq<Rule>)
    ensures RulesJson(a) == RulesJson(b) <==> SeenRules(a) == SeenRules(b)
  {
    hide RuleJson, SeenRule;
    var x, y, u, v := RulesJson(a).items, RulesJson(b).items, SeenRules(a), SeenRules(b);
    if |a| == |b| {
      forall i | 0 <= i < |a| ensures x[i] == y[i] <==> u[i] == v[i] { RuleSeen(a[i], b[i]); }
    }
  }

  lemma {:induction false} SignersSeen(a: seq<Signer>, b: seq<Signer>)
    ensures SignersJson(a) == SignersJson(b) <==> SeenSigners(a) == SeenSigners(b)
  {
    var x, y, u, v := SignersJson(a).items, SignersJson(b).items, SeenSigners(a), SeenSigners(b);
    if |a| == |b| {
      forall i | 0 <= i < |a| ensures x[i] == y[i] <==> u[i] == v[i] {
        var m, n := SignerJson(a[i]).members, SignerJson(b[i]).members;
        if m == n {
          assert m["key_algorithm"] == n["key_algorithm"] && m["key_fingerprint"] == n["key_fingerprint"]
              && m["signer_id"] == n["signer_id"];
        }
      }
    }
  }

  lemma {:induction false} SignaturePolicySeen(a: SignaturePolicy, b: SignaturePolicy)
    ensures SignaturePolicyJson(a) == SignaturePolicyJson(b) <==> SeenSignaturePolicy(a) == SeenSignaturePolicy(b)
  {
    var x, y := SignaturePolicyJson(a).members, SignaturePolicyJson(b).members;
    if x == y {
      assert x["type"] == Str(a.kind) && y["type"] == Str(b.kind);
      MemberSame(a.threshold > 0, Num(a.threshold), b.threshold > 0, Num(b.threshold), "threshold", x, y);
      MemberSame(a.required != [], Strings(a.required), b.required != [], Strings(b.required), "required", x, y);
      if a.required != [] { StringsInjective(a.required, b.required); }
    }
  }

  /** The preimage and what the hash sees of a policy determine each other. */
  lemma {:induction false} PolicySeen(p: Policy, q: Policy)
    ensures PolicyJson(p) == PolicyJson(q) <==> SeenPolicy(p) == SeenPolicy(q)
  {
    RulesSeen(p.rules, q.rules);
    SignersSeen(p.signers, q.signers);
    if p.signaturePolicy.Some? && q.signaturePolicy.Some? {
      SignaturePolicySeen(p.signaturePolicy.value, q.signaturePolicy.value);
    }
    if SeenPolicy(p) == SeenPolicy(q) {
      SeenGivesPreimage(p, q);
    }
    if PolicyJson(p) == PolicyJson(q) {
      PreimageGivesSeen(p, q);
    }
  }

  lemma {:induction false} SeenGivesPreimage(p: Policy, q: Policy)
    requires SeenPolicy(p) == SeenPolicy(q)
    requires RulesJson(p.rules) == RulesJson(q.rules) && SignersJson(p.signers) == SignersJson(q.signers)
    requires p.signaturePolicy.Some? && q.signaturePolicy.Some? ==>
               SignaturePolicyJson(p.signaturePolicy.value) == SignaturePolicyJson(q.signaturePolicy.value)
    ensures PolicyJson(p) == PolicyJson(q)
  {
    hide RulesJson, SignersJson, SignaturePolicyJson, Strings, SeenRules, SeenSignaturePolicy;
    assert |SeenSigners(p.signers)| == |p.signers| && |SeenSigners(q.signers)| == |q.signers|;
  }

  lemma {:induction false} PreimageGivesSeen(p: Policy, q: Policy)
    requires PolicyJson(p) == PolicyJson(q)
    requires RulesJson(p.rules) == RulesJson(q.rules) ==> SeenRules(p.rules) == SeenRules(q.rules)
    requires SignersJson(p.signers) == SignersJson(q.signers) ==> SeenSigners(p.signers) == SeenSigners(q.signers)
    requires p.signaturePolicy.Some? && q.signaturePolicy.Some? ==>
               (SignaturePolicyJson(p.signaturePolicy.value) == SignaturePolicyJson(q.signaturePolicy.value) <==>
                SeenSignaturePolicy(p.signaturePolicy.value) == SeenSignaturePolicy(q.signaturePolicy.value))
    ensures SeenPolicy(p) == SeenPolicy(q)
  {
    hide RulesJson, SignersJson, SignaturePolicyJson, Strings, SeenRules, SeenSigners, SeenSignaturePolicy,
        PolicyMembers;
    var x := PolicyMembers(p);
    AlwaysMembers(p);
    AlwaysMembers(q);
    OptionalMembers(p);
    OptionalMembers(q);
    if p.requiredAttested != [] { StringsInjective(p.requiredAttested, q.requiredAttested); }
    if p.requiredOutcome != [] { StringsInjective(p.requiredOutcome, q.requiredOutcome); }
    assert PolicyMembers(q) == x;
  }

  const BASIC := {"default_effect", "effective_at", "policy_id", "policy_name", "policy_version", "rules", "schema"}

  lemma {:induction false} PutAt(m: map<string, Json>, present: bool, key: string, value: Json, k: string)
    ensures k in Put(m, present, key, value) <==> k in m || (present && k == key)
    ensures present && k == key ==> Put(m, present, key, value)[k] == value
    ensures !(present && k == key) && k in m ==> Put(m, present, key, value)[k] == m[k]
  {
  }

  /** Where each member of the preimage comes from. */
  lemma {:induction false} MemberFrom(p: Policy, k: string)
    ensures var x, m := PolicyMembers(p), BasicMembers(p);
            && (k !in OPTIONAL ==> (k in x <==> k in m) && (k in m ==> x[k] == m[k]))
            && (k in OPTIONAL && k !in m ==> (k in x <==> OptionalMember(p, k).Some?))
            && (k in OPTIONAL && OptionalMember(p, k).Some? ==> k in x && x[k] == OptionalMember(p, k).value)
  {
    hide Put, BasicMembers, Strings, SignersJson, SignaturePolicyJson;
    var m0 := BasicMembers(p);
    var signed := p.signaturePolicy.Some?;
    var m1 := if signed then m0["signature_policy" := SignaturePolicyJson(p.signaturePolicy.value)] else m0;
    var m2 := Put(m1, p.signers != [], "signers", SignersJson(p.signers));
    var m3 := Put(m2, p.requiredAttested != [], "required_attested_fields", Strings(p.requiredAttested));
    var m4 := Put(m3, p.requiredOutcome != [], "required_outcome_fields", Strings(p.requiredOutcome));
    PutAt(m1, p.signers != [], "signers", SignersJson(p.signers), k);
    PutAt(m2, p.requiredAttested != [], "required_attested_fields", Strings(p.requiredAttested), k);
    PutAt(m3, p.requiredOutcome != [], "required_outcome_fields", Strings(p.requiredOutcome), k);
    PutAt(m4, p.profileTag != "", "profile_tag", Str(p.profileTag), k);
  }

  const OPTIONAL := {"signature_policy", "signers", "required_attested_fields", "required_outcome_fields",
      "profile_tag"}

  /** An optional member, when the policy has it. */
  ghost function OptionalMember(p: Policy, k: string): Option<Json> {
    if k == "signature_policy" && p.signaturePolicy.Some? then Some(SignaturePolicyJson(p.signaturePolicy.value))
    else if k == "signers" && p.signers != [] then Some(SignersJson(p.signers))
    else if k == "required_attested_fields" && p.requiredAttested != [] then Some(Strings(p.requiredAttested))
    else if k == "required_outcome_fields" && p.requiredOutcome != [] then Some(Strings(p.requiredOutcome))
    else if k == "profile_tag" && p.profileTag != "" then Some(Str(p.profileTag))
    else None
  }

  lemma {:induction false} BasicKept(p: Policy)
    ensures forall k :: k in BASIC ==>
        k in BasicMembers(p) && k in PolicyMembers(p) && PolicyMembers(p)[k] == BasicMembers(p)[k]
    ensures forall k :: k in OPTIONAL ==> k !in BasicMembers(p)
  {
    hide PolicyMembers, BasicMembers, OptionalMember;
    assert forall k :: k in BASIC ==> k !in OPTIONAL by { NoneOptional(); }
    BasicKeys(p);
    forall k | k in BASIC ensures k in PolicyMembers(p) && PolicyMembers(p)[k] == BasicMembers(p)[k] {
      MemberFrom(p, k);
    }
  }

  lemma {:induction false} NoneOptional()
    ensures forall k :: k in BASIC ==> k !in OPTIONAL
  {
  }

  lemma {:induction false} BasicKeys(p: Policy)
    ensures BasicMembers(p).Keys == BASIC
    ensures var x := BasicMembers(p);
            && x["default_effect"] == Str(p.defaultEffect) && x["effective_at"] == Str(p.effectiveAt)
                && x["policy_id"] == Str(p.policyId)
            && x["policy_name"] == Str(p.name) && x["policy_version"] == Str(p.version) && x["schema"] == Str(p.schema)
            && x["rules"] == RulesJson(p.rules)
  {
    hide RulesJson;
  }

  lemma {:induction false} AlwaysMembers(p: Policy)
    ensures var x := PolicyMembers(p);
            && (forall k :: k in BASIC ==> k in x)
            && x["default_effect"] == Str(p.defaultEffect) && x["effective_at"] == Str(p.effectiveAt)
                && x["policy_id"] == Str(p.policyId)
            && x["policy_name"] == Str(p.name) && x["policy_version"] == Str(p.version) && x["schema"] == Str(p.schema)
            && x["rules"] == RulesJson(p.rules)
  {
    hide RulesJson, PolicyMembers, BasicMembers;
    BasicKeys(p);
    BasicKept(p);
  }

  lemma {:induction false} OptionalMembers(p: Policy)
    ensures var x := PolicyMembers(p);
            && ("signature_policy" in x <==> p.signaturePolicy.Some?)
            && (p.signaturePolicy.Some? ==> x["signature_policy"] == SignaturePolicyJson(p.signaturePolicy.value))
            && ("signers" in x <==> p.signers != []) && (p.signers != [] ==> x["signers"] == SignersJson(p.signers))
            && ("required_attested_fields" in x <==> p.requiredAttested != [])
            && (p.requiredAttested != [] ==> x["required_attested_fields"] == Strings(p.requiredAttested))
            && ("required_outcome_fields" in x <==> p.requiredOutcome != [])
            && (p.requiredOutcome != [] ==> x["required_outcome_fields"] == Strings(p.requiredOutcome))
            && ("profile_tag" in x <==> p.profileTag != "")
                && (p.profileTag != "" ==> x["profile_tag"] == Str(p.profileTag))
  {
    hide PolicyMembers, BasicMembers, RulesJson, SignersJson, SignaturePolicyJson, Strings;
    BasicKept(p);
    MemberFrom(p, "signature_policy");
    MemberFrom(p, "signers");
    MemberFrom(p, "required_attested_fields");
    MemberFrom(p, "required_outcome_fields");
    MemberFrom(p, "profile_tag");
  }

  // ----- The hash determines the decision -----

  lemma {:induction false} ConditionUnseen(ruleId: string, c: Condition, ctx: Context)
    ensures ConditionReadable(SeenCondition(c), ctx) <==> ConditionReadable(c, ctx)
    ensures ConditionMatches(ruleId, SeenCondition(c), ctx) <==> ConditionMatches(ruleId, c, ctx)
  {
    hide ParseHHMM, InTimeWindow;
  }

  lemma {:induction false} ConditionsUnseen(ruleId: string, cs: seq<Condition>, ctx: Context)
    ensures (forall c :: c in SeenConditions(cs) ==> ConditionReadable(c, ctx)) <==> forall c :: c in cs ==>
        ConditionReadable(c, ctx)
    ensures (forall c :: c in SeenConditions(cs) ==> ConditionMatches(ruleId, c, ctx)) <==> forall c :: c in cs ==>
        ConditionMatches(ruleId, c, ctx)
  {
    hide ConditionReadable, ConditionMatches, SeenCondition;
    var seen := SeenConditions(cs);
    forall c | c in cs ensures SeenCondition(c) in seen {
      var i :| 0 <= i < |cs| && cs[i] == c;
      assert seen[i] == SeenCondition(c);
    }
    forall s | s in seen ensures exists c :: c in cs && s == SeenCondition(c) {
      var i :| 0 <= i < |seen| && seen[i] == s;
      assert cs[i] in cs;
    }
    forall c ensures ConditionReadable(SeenCondition(c), ctx) <==> ConditionReadable(c, ctx)
             ensures ConditionMatches(ruleId, SeenCondition(c), ctx) <==> ConditionMatches(ruleId, c, ctx) {
      ConditionUnseen(ruleId, c, ctx);
    }
  }

  /** Nothing a rule's decision reads is left out of what the hash sees. */
  lemma {:induction false} RuleUnseen(r: Rule, ctx: Context)
    ensures RuleReadable(SeenRule(r), ctx) <==> RuleReadable(r, ctx)
    ensures RuleMatches(SeenRule(r), ctx) <==> RuleMatches(r, ctx)
    ensures ReasonOf(SeenRule(r)) == ReasonOf(r)
  {
    hide ConditionReadable, ConditionMatches, SeenConditions, SubjectMatches, ObjectMatches, BoundReadable,
        KnownOperator;
    ConditionsUnseen(r.ruleId, r.conditions, ctx);
  }

  lemma {:induction false} ReadableUnseen(rules: seq<Rule>, ctx: Context)
    ensures AllReadable(SeenRules(rules), ctx) <==> AllReadable(rules, ctx)
  {
    hide RuleReadable, SeenRule;
    var seen := SeenRules(rules);
    forall r | r in rules ensures SeenRule(r) in seen {
      var i :| 0 <= i < |rules| && rules[i] == r;
      assert seen[i] == SeenRule(r);
    }
    forall s | s in seen ensures exists r :: r in rules && s == SeenRule(r) {
      var i :| 0 <= i < |seen| && seen[i] == s;
      assert rules[i] in rules;
    }
    forall r ensures RuleReadable(SeenRule(r), ctx) <==> RuleReadable(r, ctx) { RuleUnseen(r, ctx); }
  }

  lemma {:induction false} FirstUnseen(rules: seq<Rule>, ctx: Context)
    ensures FirstMatch(SeenRules(rules), ctx) == FirstMatch(rules, ctx)
  {
    if rules != [] {
      RuleUnseen(rules[0], ctx);
      hide RuleMatches, SeenRule;
      assert SeenRules(rules)[0] == SeenRule(rules[0]) && SeenRules(rules)[1..] == SeenRules(rules[1..]);
      FirstUnseen(rules[1..], ctx);
    }
  }

  lemma {:induction false} DecisionUnseen(rules: seq<Rule>, defaultEffect: string, ctx: Context)
    ensures DecisionOf(SeenRules(rules), defaultEffect, ctx) == DecisionOf(rules, defaultEffect, ctx)
  {
    hide RuleReadable, RuleMatches, FirstMatch, AllReadable, SeenConditions;
    ReadableUnseen(rules, ctx);
    FirstUnseen(rules, ctx);
  }

  /** Two policies with one hash give the same decision on every context: readable or not, outcome,
      fired rule and reason, whatever the preimage leaves out. */
  lemma {:induction false} HashDeterminesDecision(H: Hash, p: Policy, q: Policy, ctx: Context)
    requires InjectiveOn(H, {Canon(PolicyJson(p)), Canon(PolicyJson(q))})
    requires H(Canon(PolicyJson(p))) == H(Canon(PolicyJson(q)))
    ensures SeenPolicy(p) == SeenPolicy(q)
    ensures DecisionOf(p.rules, p.defaultEffect, ctx) == DecisionOf(q.rules, q.defaultEffect, ctx)
  {
    hide Canon, PolicyJson, DecisionOf, SeenRules;
    assert SameDigest(H, Canon(PolicyJson(p)), Canon(PolicyJson(q)));
    CanonInjective(PolicyJson(p), PolicyJson(q));
    PolicySeen(p, q);
    DecisionUnseen(p.rules, p.defaultEffect, ctx);
    DecisionUnseen(q.rules, q.defaultEffect, ctx);
  }
}
