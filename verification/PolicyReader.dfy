/**
 A policy read back out of its hash preimage, member by member under the names the documents use. What comes back is
 everything the hash sees of the policy, each value in its own place.
 */
module PolicyReader {
  import opened Text
  import opened CanonicalJson
  import opened Policy
  import opened PolicyHash
  import JsonReader

  // ----- Members by name; an absent one reads as empty -----

  function At(v: Json, k: string): Json { if v.Obj? && k in v.members then v.members[k] else Null }

  function Has(v: Json, k: string): bool { v.Obj? && k in v.members }

  function TextAt(v: Json, k: string): string { if At(v, k).Str? then At(v, k).text else "" }

  function NumberAt(v: Json, k: string): int { if At(v, k).Num? then At(v, k).number else 0 }

  function FlagAt(v: Json, k: string): bool { At(v, k).Bool? && At(v, k).value }

  function ItemsAt(v: Json, k: string): seq<Json> { if At(v, k).Arr? then At(v, k).items else [] }

  function TextsAt(v: Json, k: string): seq<string> {
    var items := ItemsAt(v, k);
    seq(|items|, i requires 0 <= i < |items| => if items[i].Str? then items[i].text else "")
  }

  // ----- The parts of a policy -----

  function ReadMatcher(v: Json): Matcher { Matcher(TextAt(v, "operator"), TextAt(v, "value"), TextsAt(v, "values")) }

  function ReadSubject(v: Json): Subject {
    Subject(TextAt(v, "type"), ReadMatcher(At(v, "id_match")),
      if Has(v, "role_match") then Some(ReadMatcher(At(v, "role_match"))) else None)
  }

  function ReadTarget(v: Json): Target {
    Target(TextAt(v, "type"), ReadMatcher(At(v, "id_match")), TextAt(v, "classification_max"),
      TextAt(v, "classification_min"))
  }

  function ReadCondition(v: Json): Condition {
    Condition(TextAt(v, "type"), NumberAt(v, "max_per_window"), NumberAt(v, "window_seconds"), TextAt(v, "start_utc"),
      TextAt(v, "end_utc"), FlagAt(v, "required"), NumberAt(v, "seconds"), TextAt(v, "role"))
  }

  function ReadConditions(items: seq<Json>): seq<Condition> {
    seq(|items|, i requires 0 <= i < |items| => ReadCondition(items[i]))
  }

  function ReadRule(v: Json): Rule {
    Rule(TextAt(v, "rule_id"), "", TextAt(v, "effect"), ReadSubject(At(v, "subject")),
      ReadMatcher(At(At(v, "verb"), "match")), ReadTarget(At(v, "object")), ReadConditions(ItemsAt(v, "conditions")), 0,
      TextAt(v, "reason_code"))
  }

  function ReadRules(items: seq<Json>): seq<Rule> {
    seq(|items|, i requires 0 <= i < |items| => ReadRule(items[i]))
  }

  function ReadSigner(v: Json): Signer {
    Signer(TextAt(v, "signer_id"), TextAt(v, "key_algorithm"), TextAt(v, "key_fingerprint"), "", "")
  }

  function ReadSigners(items: seq<Json>): seq<Signer> {
    seq(|items|, i requires 0 <= i < |items| => ReadSigner(items[i]))
  }

  function ReadSignaturePolicy(v: Json): SignaturePolicy {
    SignaturePolicy(TextAt(v, "type"), NumberAt(v, "threshold"), TextsAt(v, "required"))
  }

  function ReadPolicy(v: Json): Policy {
    Policy(TextAt(v, "schema"), TextAt(v, "policy_id"), TextAt(v, "policy_name"), TextAt(v, "policy_version"),
      TextAt(v, "effective_at"), TextAt(v, "default_effect"), ReadRules(ItemsAt(v, "rules")), map[], [],
      TextsAt(v, "required_attested_fields"), TextsAt(v, "required_outcome_fields"), TextAt(v, "profile_tag"),
      if Has(v, "signature_policy") then Some(ReadSignaturePolicy(At(v, "signature_policy"))) else None,
      ReadSigners(ItemsAt(v, "signers")))
  }

  // ----- Reading gives back what the hash sees -----

  lemma {:induction false} StringsRead(v: Json, k: string, xs: seq<string>)
    requires if xs == [] then !Has(v, k) else At(v, k) == Strings(xs)
    ensures TextsAt(v, k) == xs
  {
  }

  lemma {:induction false} MatcherReads(m: Matcher)
    ensures ReadMatcher(MatcherJson(m)) == m
  {
    StringsRead(MatcherJson(m), "values", m.values);
  }

  lemma {:induction false} SubjectReads(s: Subject)
    ensures ReadSubject(SubjectJson(s)) == s
  {
    hide MatcherJson, ReadMatcher;
    MatcherReads(s.idMatch);
    if s.roleMatch.Some? { MatcherReads(s.roleMatch.value); }
  }

  lemma {:induction false} TargetReads(o: Target)
    ensures ReadTarget(TargetJson(o)) == o
  {
    hide MatcherJson, ReadMatcher;
    MatcherReads(o.idMatch);
  }

  /** A condition's own fields come back; those of other types read as empty. */
  lemma {:induction false} ConditionReads(c: Condition)
    ensures ReadCondition(ConditionJson(c)) == SeenCondition(c)
  {
    if c.kind == "rate_limit" || c.kind == "min_session_age" {
      CountsRead(c);
    } else if c.kind == "time_window" || c.kind == "requires_role" {
      TextsRead(c);
    }
  }

  lemma {:induction false} CountsRead(c: Condition)
    requires c.kind == "rate_limit" || c.kind == "min_session_age"
    ensures ReadCondition(ConditionJson(c)) == SeenCondition(c)
  {
  }

  lemma {:induction false} TextsRead(c: Condition)
    requires c.kind == "time_window" || c.kind == "requires_role"
    ensures ReadCondition(ConditionJson(c)) == SeenCondition(c)
  {
  }

  lemma {:induction false} ConditionsRead(cs: seq<Condition>)
    ensures ReadConditions(ConditionsJson(cs).items) == SeenConditions(cs)
  {
    hide ConditionJson, ReadCondition, SeenCondition;
    forall i | 0 <= i < |cs| ensures ReadCondition(ConditionsJson(cs).items[i]) == SeenCondition(cs[i]) {
      ConditionReads(cs[i]);
    }
  }

  lemma {:induction false} RuleReads(r: Rule)
    ensures ReadRule(RuleJson(r)) == SeenRule(r)
  {
    hide TargetJson, ReadTarget, SubjectJson, ReadSubject, MatcherJson, ReadMatcher, ConditionsJson, ReadConditions,
        SeenConditions;
    RuleMembersAre(r);
    hide RuleJson;
    TargetReads(r.target);
    SubjectReads(r.subject);
    MatcherReads(r.verb);
    ConditionsAt(r);
  }

  lemma {:induction false} ConditionsAt(r: Rule)
    ensures ReadConditions(ItemsAt(RuleJson(r), "conditions")) == SeenConditions(r.conditions)
  {
    hide RuleJson, TargetJson, SubjectJson, MatcherJson, ReadCondition;
    RuleMembersAre(r);
    ConditionsRead(r.conditions);
  }

  lemma {:induction false} RulesRead(rs: seq<Rule>)
    ensures ReadRules(RulesJson(rs).items) == SeenRules(rs)
  {
    hide RuleJson, ReadRule, SeenRule;
    forall i | 0 <= i < |rs| ensures ReadRule(RulesJson(rs).items[i]) == SeenRule(rs[i]) { RuleReads(rs[i]); }
  }

  lemma {:induction false} SignerReads(s: Signer)
    ensures ReadSigner(SignerJson(s)) == SeenSigner(s)
        == Signer(s.signerId, s.keyAlgorithm, s.keyFingerprint, "", "")
  {
  }

  lemma {:induction false} SignersRead(ss: seq<Signer>)
    ensures ReadSigners(SignersJson(ss).items) == SeenSigners(ss)
  {
    hide SignerJson, ReadSigner, SeenSigner;
    forall i | 0 <= i < |ss| ensures ReadSigner(SignersJson(ss).items[i]) == SeenSigner(ss[i]) { SignerReads(ss[i]); }
  }

  lemma {:induction false} SignaturePolicyReads(sp: SignaturePolicy)
    ensures ReadSignaturePolicy(SignaturePolicyJson(sp)) == SeenSignaturePolicy(sp)
        == SignaturePolicy(sp.kind, if sp.threshold < 0 then 0 else sp.threshold, sp.required)
  {
    StringsRead(SignaturePolicyJson(sp), "required", sp.required);
  }

  /** Every member of a policy's preimage, by name. */
  lemma {:induction false} MembersRead(p: Policy)
    ensures var v := PolicyJson(p);
            && TextAt(v, "schema") == p.schema && TextAt(v, "policy_id") == p.policyId
            && TextAt(v, "policy_name") == p.name && TextAt(v, "policy_version") == p.version
            && TextAt(v, "effective_at") == p.effectiveAt
            && TextAt(v, "default_effect") == p.defaultEffect && TextAt(v, "profile_tag") == p.profileTag
            && At(v, "rules") == RulesJson(p.rules)
            && (Has(v, "signature_policy") <==> p.signaturePolicy.Some?)
            && (p.signaturePolicy.Some? ==> At(v, "signature_policy") == SignaturePolicyJson(p.signaturePolicy.value))
            && (if p.signers == [] then !Has(v, "signers") else At(v, "signers") == SignersJson(p.signers))
            && (if p.requiredAttested == [] then !Has(v, "required_attested_fields")
                else At(v, "required_attested_fields") == Strings(p.requiredAttested))
            && (if p.requiredOutcome == [] then !Has(v, "required_outcome_fields")
                else At(v, "required_outcome_fields") == Strings(p.requiredOutcome))
  {
    hide RulesJson, SignersJson, SignaturePolicyJson, Strings, PolicyMembers;
    AlwaysMembers(p);
    OptionalMembers(p);
  }

  /** The preimage of a policy reads back as everything the hash sees of it. */
  lemma {:induction false} PolicyReads(p: Policy)
    ensures ReadPolicy(PolicyJson(p)) == SeenPolicy(p)
  {
    hide PolicyJson, RulesJson, ReadRules, SeenRules, SignersJson, ReadSigners, SeenSigners, SignaturePolicyJson,
        ReadSignaturePolicy, SeenSignaturePolicy, Strings, TextAt, TextsAt;
    MembersRead(p);
    ListsAt(p);
    StringsRead(PolicyJson(p), "required_attested_fields", p.requiredAttested);
    StringsRead(PolicyJson(p), "required_outcome_fields", p.requiredOutcome);
    if p.signaturePolicy.Some? { SignaturePolicyReads(p.signaturePolicy.value); }
  }

  lemma {:induction false} ListsAt(p: Policy)
    ensures var v := PolicyJson(p);
            && ReadRules(ItemsAt(v, "rules")) == SeenRules(p.rules)
            && ReadSigners(ItemsAt(v, "signers")) == SeenSigners(p.signers)
  {
    hide PolicyJson, ReadRules, SeenRules, ReadSigners, SeenSigners, SignaturePolicyJson, Strings, TextAt;
    MembersRead(p);
    RulesRead(p.rules);
    SignersRead(p.signers);
    NoSigners();
  }

  lemma {:induction false} NoSigners()
    ensures ReadSigners([]) == [] == SeenSigners([])
  {
  }

  /** The text a policy hash is taken over, read as JSON and then by name, gives back what the hash sees. */
  lemma {:induction false} HashedTextReads(p: Policy)
    ensures var got := JsonReader.ReadValue(Canon(PolicyJson(p)));
            got.Some? && got.value.rest == "" && ReadPolicy(got.value.value) == SeenPolicy(p)
  {
    hide Canon, PolicyJson, ReadPolicy, SeenPolicy, JsonReader.ReadValue;
    assert Canon(PolicyJson(p)) + "" == Canon(PolicyJson(p));
    JsonReader.CanonReads(PolicyJson(p), "");
    PolicyReads(p);
  }

  // ----- Nothing else is in it -----

  ghost predicate OnlyKeys(v: Json, keys: set<string>) { v.Obj? && v.members.Keys <= keys }

  /** No member stands in a policy's preimage beside those the documents name. */
  lemma {:induction false} PolicyKeys(p: Policy)
    ensures OnlyKeys(PolicyJson(p), {"schema", "policy_id", "policy_name", "policy_version", "effective_at",
        "default_effect", "rules", "signature_policy", "signers", "required_attested_fields",
        "required_outcome_fields", "profile_tag"})
  {
    hide PolicyMembers, BasicMembers, OptionalMember;
    forall k | k in PolicyMembers(p) ensures k in BASIC || k in OPTIONAL {
      BasicKeys(p);
      MemberFrom(p, k);
    }
  }

  /** Nor in a rule's. */
  lemma {:induction false} RuleKeys(r: Rule)
    ensures OnlyKeys(RuleJson(r), {"rule_id", "effect", "subject", "verb", "object", "conditions", "reason_code"})
    ensures OnlyKeys(At(RuleJson(r), "verb"), {"match"})
  {
    hide TargetJson, SubjectJson, MatcherJson, ConditionsJson;
  }

  /** Nor in the parts of a rule, a signer or a signature policy. */
  lemma {:induction false} PartKeys(m: Matcher, s: Subject, o: Target, g: Signer, sp: SignaturePolicy)
    ensures OnlyKeys(MatcherJson(m), {"operator", "value", "values"})
    ensures OnlyKeys(SubjectJson(s), {"type", "id_match", "role_match"})
    ensures OnlyKeys(TargetJson(o), {"type", "id_match", "classification_max", "classification_min"})
    ensures OnlyKeys(SignerJson(g), {"signer_id", "key_algorithm", "key_fingerprint"})
    ensures OnlyKeys(SignaturePolicyJson(sp), {"type", "threshold", "required"})
  {
    hide Strings;
  }

  /** A condition carries its type and that type's own fields; an unknown type carries nothing more. */
  lemma {:induction false} ConditionKeys(c: Condition)
    ensures ConditionJson(c).Obj? && ConditionJson(c).members.Keys ==
        {"type"} + match c.kind
                   case "rate_limit" => {"max_per_window", "window_seconds"}
                   case "time_window" => {"start_utc", "end_utc"}
                   case "mfa_required" => {"required"}
                   case "min_session_age" => {"seconds"}
                   case "requires_role" => {"role"}
                   case _ => {}
  {
  }
}
