/**
 What a readable rule means, with every name already read into a type: no operator, condition,
 classification or time is left that could be unknown. The engine works on the names and carries a
 fallback for each unknown one; here each rule it accepts as readable is shown to read as a typed rule
 and to match exactly when that does, so the fallbacks never decide anything.
 */
module DecideMeaning {
  import opened Text
  import opened Decimal
  import opened Policy
  import opened Decide

  datatype Test =
    | Anything
    | Equals(value: string)
    | StartsWith(value: string)
    | EndsWith(value: string)
    | Includes(value: string)
    | OneOf(values: set<string>)
    | NoneOf(values: set<string>)

  /** The levels in order of sensitivity. */
  datatype Level = Public | Internal | Confidential | Restricted | TopSecret | TsSci

  datatype Demand =
    | RateBelow(limit: int)
    | TimeFrom(start: Minute, end: Minute)
    | Mfa(required: bool)
    | AgeAtLeast(seconds: int)
    | HasRole(role: string)

  datatype TypedRule = TypedRule(ruleId: string, subjectKind: string, subjectId: Test, role: Option<Test>, verb: Test,
      targetKind: string, targetId: Test, max: Option<Level>, min: Option<Level>, demands: seq<Demand>)

  // ----- Reading the names -----

  ghost function ReadTest(m: Matcher): Option<Test> {
    if m.operator == "any" then Some(Anything)
    else if m.operator == "exact" then Some(Equals(m.value))
    else if m.operator == "prefix" then Some(StartsWith(m.value))
    else if m.operator == "suffix" then Some(EndsWith(m.value))
    else if m.operator == "substring" then Some(Includes(m.value))
    else if m.operator == "in" then Some(OneOf(set v | v in m.values))
    else if m.operator == "not_in" then Some(NoneOf(set v | v in m.values))
    else None
  }

  ghost function LevelIndex(l: Level): nat {
    match l
    case Public => 0
    case Internal => 1
    case Confidential => 2
    case Restricted => 3
    case TopSecret => 4
    case TsSci => 5
  }

  ghost function ReadLevel(s: string): Option<Level> {
    if s == "PUBLIC" then Some(Public) else if s == "INTERNAL" then Some(Internal)
    else if s == "CONFIDENTIAL" then Some(Confidential)
    else if s == "RESTRICTED" then Some(Restricted) else if s == "TOP_SECRET" then Some(TopSecret)
        else if s == "TS_SCI" then Some(TsSci)
    else None
  }

  ghost function ReadDemand(c: Condition): Option<Demand> {
    if c.kind == "rate_limit" then Some(RateBelow(c.maxPerWindow))
    else if c.kind == "mfa_required" then Some(Mfa(c.required))
    else if c.kind == "min_session_age" then Some(AgeAtLeast(c.seconds))
    else if c.kind == "requires_role" then Some(HasRole(c.role))
    else if c.kind == "time_window" then
      var start, end := ParseHHMM(c.startUtc), ParseHHMM(c.endUtc);
      if start.Some? && end.Some? then Some(TimeFrom(start.value, end.value)) else None
    else None
  }

  ghost function ReadDemands(cs: seq<Condition>): Option<seq<Demand>> {
    if cs == [] then Some([])
    else
      var d, ds := ReadDemand(cs[0]), ReadDemands(cs[1..]);
      if d.Some? && ds.Some? then Some([d.value] + ds.value) else None
  }

  /** An absent bound reads as no bound. */
  ghost predicate BoundReads(s: string) { s == "" || ReadLevel(s).Some? }

  ghost function ReadRule(r: Rule): Option<TypedRule> {
    var id, verb, target := ReadTest(r.subject.idMatch), ReadTest(r.verb), ReadTest(r.target.idMatch);
    var role := if r.subject.roleMatch.Some? then ReadTest(r.subject.roleMatch.value) else None;
    var demands := ReadDemands(r.conditions);
    if id.Some? && verb.Some? && target.Some? && (r.subject.roleMatch.Some? ==> role.Some?) && demands.Some?
       && BoundReads(r.target.classMax) && BoundReads(r.target.classMin)
    then Some(TypedRule(r.ruleId, r.subject.kind, id.value, role, verb.value, r.target.kind, target.value,
                        ReadLevel(r.target.classMax), ReadLevel(r.target.classMin), demands.value))
    else None
  }

  // ----- What a typed rule says -----

  ghost predicate Passes(t: Test, v: string) {
    match t
    case Anything => true
    case Equals(x) => v == x
    case StartsWith(x) => exists rest :: v == x + rest
    case EndsWith(x) => exists front :: v == front + x
    case Includes(x) => exists front, rest :: v == front + x + rest
    case OneOf(xs) => v in xs
    case NoneOf(xs) => v !in xs
  }

  /** Minutes from a forward to b around the clock. */
  ghost function Ahead(a: Minute, b: Minute): nat { if a <= b then b - a else b - a + 1440 }

  ghost predicate Meets(d: Demand, ruleId: string, ctx: Context)
    requires d.TimeFrom? ==> ctx.clock.Some?
  {
    match d
    case RateBelow(limit) => (if ruleId in ctx.rateCounts then ctx.rateCounts[ruleId] else 0) < limit
    case TimeFrom(start, end) => Ahead(start, ctx.clock.value) <= Ahead(start, end)
    case Mfa(required) => required ==> ctx.mfaSatisfied
    case AgeAtLeast(seconds) => ctx.sessionAge >= seconds
    case HasRole(role) => ctx.subjectRole == role
  }

  /** The context supplies what the rule compares: a level if it bounds one, a time if it has a window. */
  ghost predicate Supplies(ctx: Context, r: TypedRule) {
    && (r.max.Some? || r.min.Some? ==> ReadLevel(ctx.classification).Some?)
    && forall d :: d in r.demands && d.TimeFrom? ==> ctx.clock.Some?
  }

  ghost predicate Holds(r: TypedRule, ctx: Context)
    requires Supplies(ctx, r)
  {
    && (r.subjectKind == "any" || r.subjectKind == ctx.subjectType) && Passes(r.subjectId, ctx.subjectId)
    && (r.role.Some? ==> Passes(r.role.value, ctx.subjectRole))
    && Passes(r.verb, ctx.verb)
    && (r.targetKind == "any" || r.targetKind == ctx.objectType) && Passes(r.targetId, ctx.objectId)
    && (r.max.Some? ==> LevelIndex(ReadLevel(ctx.classification).value) <= LevelIndex(r.max.value))
    && (r.min.Some? ==> LevelIndex(ReadLevel(ctx.classification).value) >= LevelIndex(r.min.value))
    && forall d :: d in r.demands ==> Meets(d, r.ruleId, ctx)
  }

  ghost predicate Understood(r: Rule, ctx: Context) { ReadRule(r).Some? && Supplies(ctx, ReadRule(r).value) }

  // ----- The engine agrees -----

  lemma {:induction false} TestAgrees(m: Matcher, v: string)
    ensures KnownOperator(m.operator) <==> ReadTest(m).Some?
    ensures ReadTest(m).Some? ==> (Matches(m, v) <==> Passes(ReadTest(m).value, v))
  {
    if m.operator == "prefix" {
      if |m.value| <= |v| { assert v == v[..|m.value|] + v[|m.value|..]; }
    } else if m.operator == "suffix" {
      if |m.value| <= |v| { assert v == v[..|v| - |m.value|] + v[|v| - |m.value|..]; }
    } else if m.operator == "substring" {
      SubstringAgrees(v, m.value);
    }
  }

  lemma {:induction false} SubstringAgrees(v: string, x: string)
    ensures HasSubstring(v, x) <==> exists front, rest :: v == front + x + rest
  {
    if i :| SubstringAt(v, x, i) {
      assert v == v[..i] + x + v[i + |x|..];
    }
    if front, rest :| v == front + x + rest {
      assert SubstringAt(v, x, |front|);
    }
  }

  lemma {:induction false} LevelAgrees(a: string, b: string)
    ensures Rank(a).Some? <==> ReadLevel(a).Some?
    ensures Compare(a, b).Some? <==> ReadLevel(a).Some? && ReadLevel(b).Some?
    ensures Compare(a, b).Some? ==>
        (Compare(a, b).value <= 0 <==> LevelIndex(ReadLevel(a).value) <= LevelIndex(ReadLevel(b).value))
    ensures Compare(a, b).Some? ==>
        (Compare(a, b).value >= 0 <==> LevelIndex(ReadLevel(a).value) >= LevelIndex(ReadLevel(b).value))
  {
  }

  /** A window wraps midnight exactly as walking forward around the clock does. */
  lemma {:induction false} WindowAgrees(startUtc: string, endUtc: string, clock: Option<Minute>)
    requires ParseHHMM(startUtc).Some? && ParseHHMM(endUtc).Some? && clock.Some?
    ensures var start := ParseHHMM(startUtc).value;
            InTimeWindow(startUtc, endUtc, clock) <==>
                Ahead(start, clock.value) <= Ahead(start, ParseHHMM(endUtc).value)
  {
  }

  lemma {:induction false} DemandAgrees(ruleId: string, c: Condition, ctx: Context)
    ensures ConditionReadable(c, ctx) <==> ReadDemand(c).Some? && (ReadDemand(c).value.TimeFrom? ==> ctx.clock.Some?)
    ensures ConditionReadable(c, ctx) ==>
        (ConditionMatches(ruleId, c, ctx) <==> Meets(ReadDemand(c).value, ruleId, ctx))
  {
    hide ParseHHMM;
    if c.kind == "time_window" && ConditionReadable(c, ctx) { WindowAgrees(c.startUtc, c.endUtc, ctx.clock); }
  }

  lemma {:induction false} DemandsAgree(ruleId: string, cs: seq<Condition>, ctx: Context)
    ensures (forall c :: c in cs ==> ConditionReadable(c, ctx)) <==>
              ReadDemands(cs).Some? && forall d :: d in ReadDemands(cs).value && d.TimeFrom? ==> ctx.clock.Some?
    ensures (forall c :: c in cs ==> ConditionReadable(c, ctx)) ==>
              ((forall c :: c in cs ==> ConditionMatches(ruleId, c, ctx)) <==>
                  forall d :: d in ReadDemands(cs).value ==> Meets(d, ruleId, ctx))
  {
    if cs != [] {
      hide ConditionReadable, ConditionMatches, ReadDemand, Meets;
      DemandAgrees(ruleId, cs[0], ctx);
      DemandsAgree(ruleId, cs[1..], ctx);
      assert forall c :: c in cs <==> c == cs[0] || c in cs[1..];
    }
  }

  /** A rule is readable exactly when every name in it reads and the context supplies what it compares. */
  lemma {:induction false} ReadableIffUnderstood(r: Rule, ctx: Context)
    ensures RuleReadable(r, ctx) <==> Understood(r, ctx)
  {
    hide KnownOperator, Rank, ReadTest, ReadLevel, ConditionReadable, ReadDemands;
    TestAgrees(r.subject.idMatch, "");
    TestAgrees(r.verb, "");
    TestAgrees(r.target.idMatch, "");
    if r.subject.roleMatch.Some? { TestAgrees(r.subject.roleMatch.value, ""); }
    LevelAgrees(r.target.classMax, r.target.classMin);
    LevelAgrees(r.target.classMin, r.target.classMax);
    LevelAgrees(ctx.classification, "");
    DemandsAgree(r.ruleId, r.conditions, ctx);
    NoLevel();
  }

  lemma {:induction false} NoLevel()
    ensures ReadLevel("") == None
  {
  }

  /** On what it can read, the engine matches a rule exactly when the typed rule holds. */
  lemma {:induction false} MatchesIffHolds(r: Rule, ctx: Context)
    requires RuleReadable(r, ctx)
    ensures Understood(r, ctx) && (RuleMatches(r, ctx) <==> Holds(ReadRule(r).value, ctx))
  {
    hide KnownOperator, Rank, ReadTest, ReadLevel, ConditionReadable, ConditionMatches, ReadDemands, Matches, Passes,
        Compare, Meets, LevelIndex;
    ReadableIffUnderstood(r, ctx);
    TestAgrees(r.subject.idMatch, ctx.subjectId);
    TestAgrees(r.verb, ctx.verb);
    TestAgrees(r.target.idMatch, ctx.objectId);
    if r.subject.roleMatch.Some? { TestAgrees(r.subject.roleMatch.value, ctx.subjectRole); }
    LevelAgrees(ctx.classification, r.target.classMax);
    LevelAgrees(ctx.classification, r.target.classMin);
    DemandsAgree(r.ruleId, r.conditions, ctx);
    NoLevel();
  }

  /** A decision is made exactly when every rule is understood, those after the firing one included;
      then it is the first rule whose meaning holds, or the default when none does. */
  lemma {:induction false} FailStopFirstMatch(rules: seq<Rule>, defaultEffect: string, ctx: Context)
    ensures DecisionOf(rules, defaultEffect, ctx).Decided? <==> forall r :: r in rules ==> Understood(r, ctx)
    ensures DecisionOf(rules, defaultEffect, ctx).Decided? ==>
              forall k :: 0 <= k < |rules| && k <= FirstMatch(rules, ctx) ==>
                Understood(rules[k], ctx) && (Holds(ReadRule(rules[k]).value, ctx) <==> k == FirstMatch(rules, ctx))
  {
    hide RuleReadable, RuleMatches, Holds, ReadRule, Supplies;
    forall r | r in rules ensures RuleReadable(r, ctx) <==> Understood(r, ctx) { ReadableIffUnderstood(r, ctx); }
    if AllReadable(rules, ctx) {
      forall k | 0 <= k < |rules|
        ensures Understood(rules[k], ctx) && (RuleMatches(rules[k], ctx) <==> Holds(ReadRule(rules[k]).value, ctx))
      {
        MatchesIffHolds(rules[k], ctx);
      }
    }
  }

  /** Raising rate counts stops rules and never lets one fire earlier. */
  lemma {:induction false} RatesOnlyDelay(rules: seq<Rule>, ctx: Context, counts: map<string, int>)
    requires forall id :: Count(ctx, id) <= Count(ctx.(rateCounts := counts), id)
    ensures AllReadable(rules, ctx) <==> AllReadable(rules, ctx.(rateCounts := counts))
    ensures FirstMatch(rules, ctx) <= FirstMatch(rules, ctx.(rateCounts := counts))
  {
    var raised := ctx.(rateCounts := counts);
    forall r | r in rules ensures RuleReadable(r, ctx) <==> RuleReadable(r, raised) { RatesReadable(r, ctx, counts); }
    var n := FirstMatch(rules, raised);
    if n < |rules| { RatesStop(rules[n], ctx, counts); }
  }

  lemma {:induction false} RatesReadable(r: Rule, ctx: Context, counts: map<string, int>)
    ensures RuleReadable(r, ctx) <==> RuleReadable(r, ctx.(rateCounts := counts))
  {
    forall c ensures ConditionReadable(c, ctx) <==> ConditionReadable(c, ctx.(rateCounts := counts)) { }
  }

  lemma {:induction false} RatesStop(r: Rule, ctx: Context, counts: map<string, int>)
    requires forall id :: Count(ctx, id) <= Count(ctx.(rateCounts := counts), id)
    requires RuleMatches(r, ctx.(rateCounts := counts))
    ensures RuleMatches(r, ctx)
  {
    forall c | c in r.conditions ensures ConditionMatches(r.ruleId, c, ctx) {
      assert ConditionMatches(r.ruleId, c, ctx.(rateCounts := counts));
    }
  }

  // ----- What a decision says -----

  /** The context answers the rule, and the rule holds in it. */
  ghost predicate Applies(r: Rule, ctx: Context) { Understood(r, ctx) && Holds(ReadRule(r).value, ctx) }

  /**
   The decision of the first rule that applies: its effect, its name, and its own reason or the word for its effect.
   Every rule is understood, those after it included.
   */
  lemma {:induction false} FirstRuleDecides(rules: seq<Rule>, defaultEffect: string, ctx: Context, k: nat)
    requires (forall r :: r in rules ==> Understood(r, ctx)) && k < |rules| && Applies(rules[k], ctx)
    requires forall j :: 0 <= j < k ==> !Applies(rules[j], ctx)
    ensures var d, r := DecisionOf(rules, defaultEffect, ctx), rules[k];
            && d.Decided? && d.outcome == r.effect && d.firedRule == r.ruleId
            && (r.reasonOverride != "" ==> d.reason == r.reasonOverride)
            && (r.reasonOverride == "" && r.effect == "allow" ==> d.reason == "RULE_ALLOWED")
            && (r.reasonOverride == "" && r.effect == "deny" ==> d.reason == "RULE_DENIED")
            && (r.reasonOverride == "" && r.effect != "allow" && r.effect != "deny" ==> d.reason == "")
  {
    hide RuleReadable, RuleMatches, Holds, ReadRule, Supplies;
    FailStopFirstMatch(rules, defaultEffect, ctx);
  }

  /** When no rule applies the default effect is the outcome, under the default's name and reason. */
  lemma {:induction false} DefaultDecides(rules: seq<Rule>, defaultEffect: string, ctx: Context)
    requires forall r :: r in rules ==> Understood(r, ctx) && !Applies(r, ctx)
    ensures DecisionOf(rules, defaultEffect, ctx) == Decided(defaultEffect, "default", "DEFAULT_EFFECT_APPLIED")
  {
    hide RuleReadable, RuleMatches, Holds, ReadRule, Supplies;
    FailStopFirstMatch(rules, defaultEffect, ctx);
  }
}
