/** The decision engine (internal/psleval): every rule is checked as readable, then the first that matches fires. */
module Decide {
  import opened Text
  import opened Decimal
  import opened Policy

  // ----- Matchers -----

  const OPERATORS := {"any", "exact", "prefix", "suffix", "substring", "in", "not_in"}

  predicate KnownOperator(op: string) { op in OPERATORS }

  ghost predicate HasSubstring(s: string, sub: string) {
    exists i :: SubstringAt(s, sub, i)
  }

  predicate SubstringAt(s: string, sub: string, i: int) { 0 <= i && i + |sub| <= |s| && s[i..i + |sub|] == sub }

  ghost predicate Matches(m: Matcher, value: string) {
    if m.operator == "any" then true
    else if m.operator == "exact" then value == m.value
    else if m.operator == "prefix" then |m.value| <= |value| && value[..|m.value|] == m.value
    else if m.operator == "suffix" then |m.value| <= |value| && value[|value| - |m.value|..] == m.value
    else if m.operator == "substring" then HasSubstring(value, m.value)
    else if m.operator == "in" then value in m.values
    else if m.operator == "not_in" then value !in m.values
    else false
  }

  method Contains(s: string, sub: string) returns (r: bool)
    ensures r <==> HasSubstring(s, sub)
  {
    if sub == "" {
      assert SubstringAt(s, sub, 0);
      return true;
    }
    if |sub| > |s| {
      return false;
    }
    var i := 0;
    while i + |sub| <= |s|
      invariant 0 <= i && forall k :: 0 <= k < i ==> !SubstringAt(s, sub, k)
    {
      if s[i..i + |sub|] == sub {
        assert SubstringAt(s, sub, i);
        return true;
      }
      i := i + 1;
    }
    return false;
  }

  method InSet(value: string, values: seq<string>) returns (r: bool)
    ensures r <==> value in values
  {
    for i := 0 to |values|
      invariant value !in values[..i]
    {
      if values[i] == value {
        return true;
      }
    }
    return false;
  }

  method Match(m: Matcher, value: string) returns (r: bool)
    ensures r <==> Matches(m, value)
  {
    if m.operator == "any" {
      r := true;
    } else if m.operator == "exact" {
      r := value == m.value;
    } else if m.operator == "prefix" {
      r := |m.value| <= |value| && value[..|m.value|] == m.value;
    } else if m.operator == "suffix" {
      r := |m.value| <= |value| && value[|value| - |m.value|..] == m.value;
    } else if m.operator == "substring" {
      r := Contains(value, m.value);
    } else if m.operator == "in" {
      r := InSet(value, m.values);
    } else if m.operator == "not_in" {
      r := InSet(value, m.values);
      r := !r;
    } else {
      r := false;
    }
  }

  // ----- Classifications and times -----

  function Rank(c: string): Option<nat> {
    if c == "PUBLIC" then Some(0)
    else if c == "INTERNAL" then Some(1)
    else if c == "CONFIDENTIAL" then Some(2)
    else if c == "RESTRICTED" then Some(3)
    else if c == "TOP_SECRET" then Some(4)
    else if c == "TS_SCI" then Some(5)
    else None
  }

  /** CompareClassification: -1, 0 or 1, or nothing when either side is unknown. */
  function Compare(a: string, b: string): Option<int> {
    if Rank(a).None? || Rank(b).None? then None
    else if Rank(a).value < Rank(b).value then Some(-1)
    else if Rank(a).value > Rank(b).value then Some(1)
    else Some(0)
  }

  function ParseHHMM(s: string): Option<Minute> {
    if |s| != 5 || s[2] != ':' then None
    else if !IsDigit(s[0]) || !IsDigit(s[1]) || !IsDigit(s[3]) || !IsDigit(s[4]) then None
    else
      var h, m := Value(s[0]) * 10 + Value(s[1]), Value(s[3]) * 10 + Value(s[4]);
      if h > 23 || m > 59 then None else Some(h * 60 + m)
  }

  function PrintHHMM(t: Minute): string {
    var h, m := t / 60, t % 60;
    [Digit(h / 10), Digit(h % 10), ':', Digit(m / 10), Digit(m % 10)]
  }

  /** The texts that read as a time of day are exactly the prints of the 1440 minutes. */
  lemma {:induction false} HHMMExact(s: string, t: Minute)
    ensures ParseHHMM(s) == Some(t) <==> s == PrintHHMM(t)
  {
    if ParseHHMM(s).Some? {
      var h, m := Value(s[0]) * 10 + Value(s[1]), Value(s[3]) * 10 + Value(s[4]);
      assert (h * 60 + m) / 60 == h && (h * 60 + m) % 60 == m;
      assert h / 10 == Value(s[0]) && h % 10 == Value(s[1]) && m / 10 == Value(s[3]) && m % 10 == Value(s[4]);
      assert s == PrintHHMM(h * 60 + m);
    }
    ParsePrinted(t);
  }

  lemma {:induction false} ParsePrinted(t: Minute)
    ensures ParseHHMM(PrintHHMM(t)) == Some(t)
  {
    var h, m := t / 60, t % 60;
    var s := PrintHHMM(t);
    assert Value(s[0]) == h / 10 && Value(s[1]) == h % 10 && Value(s[3]) == m / 10 && Value(s[4]) == m % 10;
  }

  function MinuteOr0(t: Option<Minute>): Minute { if t.Some? then t.value else 0 }

  predicate InTimeWindow(startUtc: string, endUtc: string, clock: Option<Minute>) {
    var start, end, now := MinuteOr0(ParseHHMM(startUtc)), MinuteOr0(ParseHHMM(endUtc)), MinuteOr0(clock);
    if start <= end then start <= now <= end else now >= start || now <= end
  }

  // ----- Rules -----

  function Count(ctx: Context, ruleId: string): int { if ruleId in ctx.rateCounts then ctx.rateCounts[ruleId] else 0 }

  predicate ConditionMatches(ruleId: string, c: Condition, ctx: Context) {
    if c.kind == "mfa_required" then !c.required || ctx.mfaSatisfied
    else if c.kind == "min_session_age" then ctx.sessionAge >= c.seconds
    else if c.kind == "requires_role" then ctx.subjectRole == c.role
    else if c.kind == "time_window" then InTimeWindow(c.startUtc, c.endUtc, ctx.clock)
    else if c.kind == "rate_limit" then Count(ctx, ruleId) < c.maxPerWindow
    else false
  }

  ghost predicate SubjectMatches(s: Subject, ctx: Context) {
    && (s.kind == "any" || s.kind == ctx.subjectType)
    && Matches(s.idMatch, ctx.subjectId)
    && (s.roleMatch.Some? ==> Matches(s.roleMatch.value, ctx.subjectRole))
  }

  predicate ClassMatches(o: Target, classification: string) {
    && (o.classMax != "" ==>
        Compare(classification, o.classMax).Some? && Compare(classification, o.classMax).value <= 0)
    && (o.classMin != "" ==>
        Compare(classification, o.classMin).Some? && Compare(classification, o.classMin).value >= 0)
  }

  ghost predicate ObjectMatches(o: Target, ctx: Context) {
    && (o.kind == "any" || o.kind == ctx.objectType)
    && Matches(o.idMatch, ctx.objectId)
    && ClassMatches(o, ctx.classification)
  }

  ghost predicate RuleMatches(r: Rule, ctx: Context) {
    && SubjectMatches(r.subject, ctx) && Matches(r.verb, ctx.verb) && ObjectMatches(r.target, ctx)
    && forall c :: c in r.conditions ==> ConditionMatches(r.ruleId, c, ctx)
  }

  predicate ConditionReadable(c: Condition, ctx: Context) {
    c.kind in {"mfa_required", "min_session_age", "requires_role", "rate_limit"}
    || (c.kind == "time_window" && ParseHHMM(c.startUtc).Some? && ParseHHMM(c.endUtc).Some? && ctx.clock.Some?)
  }

  predicate BoundReadable(bound: string, classification: string) {
    bound == "" || (Rank(bound).Some? && Rank(classification).Some?)
  }

  ghost predicate RuleReadable(r: Rule, ctx: Context) {
    && KnownOperator(r.subject.idMatch.operator)
    && KnownOperator(r.verb.operator)
    && KnownOperator(r.target.idMatch.operator)
    && (r.subject.roleMatch.Some? ==> KnownOperator(r.subject.roleMatch.value.operator))
    && BoundReadable(r.target.classMax, ctx.classification) && BoundReadable(r.target.classMin, ctx.classification)
    && forall c :: c in r.conditions ==> ConditionReadable(c, ctx)
  }

  ghost predicate AllReadable(rules: seq<Rule>, ctx: Context) { forall r :: r in rules ==> RuleReadable(r, ctx) }

  /** The index of the first rule that matches, or how many rules there are. */
  ghost function FirstMatch(rules: seq<Rule>, ctx: Context): (n: nat)
    ensures n <= |rules| && (n < |rules| ==> RuleMatches(rules[n], ctx))
    ensures forall k :: 0 <= k < n ==> !RuleMatches(rules[k], ctx)
  {
    if rules == [] || RuleMatches(rules[0], ctx) then 0 else 1 + FirstMatch(rules[1..], ctx)
  }

  datatype Decision = Unreadable | Decided(outcome: string, firedRule: string, reason: string)

  function ReasonOf(r: Rule): string {
    if r.reasonOverride != "" then r.reasonOverride
    else if r.effect == "allow" then "RULE_ALLOWED" else if r.effect == "deny" then "RULE_DENIED" else ""
  }

  /** What a decision is: nothing if any rule is unreadable, else the first matching rule or the default. */
  ghost function DecisionOf(rules: seq<Rule>, defaultEffect: string, ctx: Context): Decision {
    if !AllReadable(rules, ctx) then Unreadable
    else
      var n := FirstMatch(rules, ctx);
      if n < |rules| then Decided(rules[n].effect, rules[n].ruleId, ReasonOf(rules[n]))
      else Decided(defaultEffect, "default", "DEFAULT_EFFECT_APPLIED")
  }

  // ----- The engine -----

  method MatchSubject(s: Subject, ctx: Context) returns (r: bool)
    ensures r <==> SubjectMatches(s, ctx)
  {
    if s.kind != "any" && s.kind != ctx.subjectType {
      return false;
    }
    r := Match(s.idMatch, ctx.subjectId);
    if r && s.roleMatch.Some? {
      r := Match(s.roleMatch.value, ctx.subjectRole);
    }
  }

  method MatchObject(o: Target, ctx: Context) returns (r: bool)
    ensures r <==> ObjectMatches(o, ctx)
  {
    if o.kind != "any" && o.kind != ctx.objectType {
      return false;
    }
    r := Match(o.idMatch, ctx.objectId);
    if !r {
      return false;
    }
    if o.classMax != "" {
      var cmp := Compare(ctx.classification, o.classMax);
      if cmp.None? || cmp.value > 0 {
        return false;
      }
    }
    if o.classMin != "" {
      var cmp := Compare(ctx.classification, o.classMin);
      if cmp.None? || cmp.value < 0 {
        return false;
      }
    }
    return true;
  }

  method MatchConditions(ruleId: string, conds: seq<Condition>, ctx: Context) returns (r: bool)
    ensures r <==> forall c :: c in conds ==> ConditionMatches(ruleId, c, ctx)
  {
    for i := 0 to |conds|
      invariant forall c :: c in conds[..i] ==> ConditionMatches(ruleId, c, ctx)
    {
      if !ConditionMatches(ruleId, conds[i], ctx) {
        return false;
      }
      assert conds[..i + 1] == conds[..i] + [conds[i]];
    }
    assert conds[..|conds|] == conds;
    return true;
  }

  method RuleIsReadable(r: Rule, ctx: Context) returns (ok: bool)
    ensures ok <==> RuleReadable(r, ctx)
  {
    var matchers := [r.subject.idMatch, r.verb, r.target.idMatch];
    if r.subject.roleMatch.Some? {
      matchers := matchers + [r.subject.roleMatch.value];
    }
    for i := 0 to |matchers|
      invariant forall k :: 0 <= k < i ==> KnownOperator(matchers[k].operator)
    {
      if !KnownOperator(matchers[i].operator) {
        return false;
      }
    }
    assert KnownOperator(matchers[0].operator) && KnownOperator(matchers[1].operator)
        && KnownOperator(matchers[2].operator);
    assert r.subject.roleMatch.Some? ==> KnownOperator(matchers[3].operator);
    var bounds := [r.target.classMax, r.target.classMin];
    for i := 0 to 2
      invariant forall k :: 0 <= k < i ==> BoundReadable(bounds[k], ctx.classification)
    {
      if !BoundReadable(bounds[i], ctx.classification) {
        return false;
      }
    }
    assert BoundReadable(bounds[0], ctx.classification) && BoundReadable(bounds[1], ctx.classification);
    for i := 0 to |r.conditions|
      invariant forall c :: c in r.conditions[..i] ==> ConditionReadable(c, ctx)
    {
      if !ConditionReadable(r.conditions[i], ctx) {
        return false;
      }
      assert r.conditions[..i + 1] == r.conditions[..i] + [r.conditions[i]];
    }
    assert r.conditions[..|r.conditions|] == r.conditions;
    return true;
  }

  /** checkReadable: every rule, including those after the one that will fire. */
  method CheckReadable(rules: seq<Rule>, ctx: Context) returns (ok: bool)
    ensures ok <==> AllReadable(rules, ctx)
  {
    for i := 0 to |rules|
      invariant AllReadable(rules[..i], ctx)
    {
      var readable := RuleIsReadable(rules[i], ctx);
      if !readable {
        return false;
      }
      assert rules[..i + 1] == rules[..i] + [rules[i]];
    }
    assert rules[..|rules|] == rules;
    return true;
  }

  method Decide(rules: seq<Rule>, defaultEffect: string, ctx: Context) returns (d: Decision)
    ensures d == DecisionOf(rules, defaultEffect, ctx)
  {
    hide RuleMatches, RuleReadable;
    var readable := CheckReadable(rules, ctx);
    if !readable {
      return Unreadable;
    }
    for i := 0 to |rules|
      invariant forall k :: 0 <= k < i ==> !RuleMatches(rules[k], ctx)
    {
      var matched := MatchRule(rules[i], ctx);
      if matched {
        return Decided(rules[i].effect, rules[i].ruleId, ReasonOf(rules[i]));
      }
    }
    return Decided(defaultEffect, "default", "DEFAULT_EFFECT_APPLIED");
  }

  method MatchRule(r: Rule, ctx: Context) returns (matched: bool)
    ensures matched <==> RuleMatches(r, ctx)
  {
    matched := MatchSubject(r.subject, ctx);
    if matched {
      matched := Match(r.verb, ctx.verb);
    }
    if matched {
      matched := MatchObject(r.target, ctx);
    }
    if matched {
      matched := MatchConditions(r.ruleId, r.conditions, ctx);
    }
  }
}
