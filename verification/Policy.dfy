/** A PSL policy document as both the hash and the decision read it, and what a decision is made about. */
module Policy {
  import opened Text
  import opened CanonicalJson

  datatype Matcher = Matcher(operator: string, value: string, values: seq<string>)

  datatype Subject = Subject(kind: string, idMatch: Matcher, roleMatch: Option<Matcher>)

  datatype Target = Target(kind: string, idMatch: Matcher, classMax: string, classMin: string)

  datatype Condition = Condition(kind: string, maxPerWindow: int, windowSeconds: int, startUtc: string, endUtc: string,
      required: bool, seconds: int, role: string)

  datatype Rule = Rule(ruleId: string, ruleName: string, effect: string, subject: Subject, verb: Matcher,
      target: Target, conditions: seq<Condition>, priority: int, reasonOverride: string)

  datatype SignaturePolicy = SignaturePolicy(kind: string, threshold: int, required: seq<string>)

  datatype Signer = Signer(signerId: string, keyAlgorithm: string, keyFingerprint: string, signature: string,
      signedAt: string)

  datatype Policy = Policy(schema: string, policyId: string, name: string, version: string, effectiveAt: string,
      defaultEffect: string, rules: seq<Rule>, metadata: map<string, Json>, tags: seq<string>,
      requiredAttested: seq<string>, requiredOutcome: seq<string>, profileTag: string,
      signaturePolicy: Option<SignaturePolicy>, signers: seq<Signer>)

  /** Minutes since midnight. */
  type Minute = m: int | 0 <= m < 1440

  /** What the rules are matched against. `clock` is the RFC 3339 time read as a minute of the UTC day, if it reads. */
  datatype Context = Context(subjectId: string, subjectType: string, subjectRole: string, verb: string,
      objectType: string, objectId: string, classification: string, mfaSatisfied: bool, sessionAge: int,
      clock: Option<Minute>, rateCounts: map<string, int>)
}
