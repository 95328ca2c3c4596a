/**
 The decision core (packages/access-control/src/engine.ts): what a policy means,
 rule by rule, and the compiled form that answers the same.
 */
module Engine {
  import opened Options
  import opened JsValue
  import opened Truth
  import opened Conditions
  import opened Roles
  import opened Policy

  datatype Reason = UnknownAction | UnknownSubject | ExplicitDeny | UnresolvedDeny | Allowed | NoMatchingRule

  /** One check: who asks (by the roles claimed), what for, and the attributes supplied. */
  datatype Question = Question(claims: seq<Role>, action: string, subject: string, environment: Environment)

  /** An own property, when there is one. */
  function OwnProperty(v: Value, key: string): Value {
    if (v.Record? || v.List?) && key in v.own then v.own[key] else Undefined
  }

  /** The attribute roots of one check: the principal itself, and what the context holds under its own keys. */
  function Attributes(principal: Value, context: Value): Environment {
    Environment(principal, OwnProperty(context, RESOURCE), OwnProperty(context, ENV))
  }

  predicate Matches(selector: Selector, name: string) {
    selector.Everything? || name in selector.names
  }

  function Verdict(rule: Rule, environment: Environment): Ternary {
    if rule.when.None? then True else EvaluateCondition(rule.when.value, environment)
  }

  // ----- What a policy means -----

  /** A rule without roles is for everyone; otherwise the caller must hold one of them, inheritance included. */
  ghost predicate Targets(p: Policy, rule: Rule, claims: seq<Role>) {
    rule.roles.Some? ==> exists role :: role in rule.roles.value && Holds(p.roles, claims, role)
  }

  ghost predicate Applies(p: Policy, rule: Rule, q: Question) {
    Matches(rule.subjects, q.subject) && Matches(rule.actions, q.action) && Targets(p, rule, q.claims)
  }

  /** `rule` applies to the question, and its condition comes out as `verdict`. */
  ghost predicate Fires(p: Policy, rule: Rule, q: Question, effect: Effect, verdict: Ternary) {
    rule.effect == effect && Applies(p, rule, q) && Verdict(rule, q.environment) == verdict
  }

  ghost predicate FiresIn(p: Policy, rules: seq<Rule>, q: Question, effect: Effect, verdict: Ternary) {
    exists rule :: rule in rules && Fires(p, rule, q, effect, verdict)
  }

  ghost predicate SomeFires(p: Policy, q: Question, effect: Effect, verdict: Ternary) {
    FiresIn(p, p.rules, q, effect, verdict)
  }

  /** The answer by scanning every rule, with roles read off the inheritance graph. */
  ghost function ReasonFor(p: Policy, q: Question): Reason {
    if q.action !in p.actions then UnknownAction
    else if q.subject !in p.subjects then UnknownSubject
    else if SomeFires(p, q, Deny, True) then ExplicitDeny
    else if SomeFires(p, q, Deny, Unknown) then UnresolvedDeny
    else if SomeFires(p, q, Allow, True) then Allowed
    else NoMatchingRule
  }

  /** The id of the first rule that fires, as `explain` reports it. */
  ghost function FirstId(p: Policy, rules: seq<Rule>, q: Question, effect: Effect, verdict: Ternary): Option<string> {
    if rules == [] then None
    else if Fires(p, rules[0], q, effect, verdict) then rules[0].id
    else FirstId(p, rules[1..], q, effect, verdict)
  }

  ghost function IdFor(p: Policy, q: Question): Option<string> {
    match ReasonFor(p, q)
    case ExplicitDeny => FirstId(p, p.rules, q, Deny, True)
    case UnresolvedDeny => FirstId(p, p.rules, q, Deny, Unknown)
    case Allowed => FirstId(p, p.rules, q, Allow, True)
    case _ => None
  }

  /** A condition that holds for certain, and one that certainly does not; a rule without one always holds. */
  predicate Satisfied(rule: Rule, environment: Environment) {
    rule.when.Some? ==> EvaluateCondition(rule.when.value, environment) == True
  }

  predicate Refuted(rule: Rule, environment: Environment) {
    rule.when.Some? && EvaluateCondition(rule.when.value, environment) == False
  }

  /**
   Fail closed: a question is allowed exactly when its names are declared, some applicable `allow` rule certainly
   holds, and every applicable `deny` rule certainly does not.
   */
  lemma AllowedIff(p: Policy, q: Question)
    ensures ReasonFor(p, q) == Allowed <==>
            && q.action in p.actions && q.subject in p.subjects
            && (exists rule :: rule in p.rules && rule.effect == Allow && Applies(p, rule, q)
                               && Satisfied(rule, q.environment))
            && (forall rule :: rule in p.rules && rule.effect == Deny && Applies(p, rule, q)
                               ==> Refuted(rule, q.environment))
  {
    if rule :| rule in p.rules && rule.effect == Allow && Applies(p, rule, q) && Satisfied(rule, q.environment) {
      assert Fires(p, rule, q, Allow, True);
    }
    if rule :| rule in p.rules && rule.effect == Deny && Applies(p, rule, q) && !Refuted(rule, q.environment) {
      assert Fires(p, rule, q, Deny, Verdict(rule, q.environment));
    }
    forall rule | rule in p.rules && Refuted(rule, q.environment)
      ensures !Fires(p, rule, q, Deny, True) && !Fires(p, rule, q, Deny, Unknown)
    {
      assert Verdict(rule, q.environment) == False;
    }
  }

  /** The order of the rules, and repeating one, change neither the outcome nor the reason. */
  lemma RuleOrderIsIrrelevant(p: Policy, p': Policy, q: Question)
    requires p'.roles == p.roles
    requires forall a :: a in p'.actions <==> a in p.actions
    requires forall s :: s in p'.subjects <==> s in p.subjects
    requires forall rule :: rule in p'.rules <==> rule in p.rules
    ensures ReasonFor(p', q) == ReasonFor(p, q)
  {
  }

  /** Supplying more attributes only ever turns an unknown verdict into a known one. */
  lemma VerdictIsMonotone(rule: Rule, a: Environment, b: Environment)
    requires EnvironmentRefines(a, b)
    ensures Refines(Verdict(rule, a), Verdict(rule, b))
  {
    if rule.when.Some? {
      EvaluateIsMonotone(rule.when.value, a, b, 1);
    }
  }

  /** A grant made without some attributes stands whatever they turn out to be. */
  lemma GrantsAreMonotone(p: Policy, q: Question, more: Environment)
    requires EnvironmentRefines(q.environment, more)
    requires ReasonFor(p, q) == Allowed
    ensures ReasonFor(p, q.(environment := more)) == Allowed
  {
    var q' := q.(environment := more);
    forall rule | rule in p.rules
      ensures Applies(p, rule, q') <==> Applies(p, rule, q)
      ensures Refines(Verdict(rule, q.environment), Verdict(rule, more))
    {
      VerdictIsMonotone(rule, q.environment, more);
    }
    forall rule, verdict | rule in p.rules && Fires(p, rule, q', Deny, verdict)
      ensures verdict == False
    {
      assert !Fires(p, rule, q, Deny, True) && !Fires(p, rule, q, Deny, Unknown);
    }
    var granting :| granting in p.rules && Fires(p, granting, q, Allow, True);
    assert Fires(p, granting, q', Allow, True);
  }

  /** The same the other way round: leaving attributes out never turns a denial into a grant. */
  lemma OmissionNeverGrants(p: Policy, q: Question, less: Environment)
    requires EnvironmentRefines(less, q.environment)
    requires ReasonFor(p, q) != Allowed
    ensures ReasonFor(p, q.(environment := less)) != Allowed
  {
    if ReasonFor(p, q.(environment := less)) == Allowed {
      GrantsAreMonotone(p, q.(environment := less), q.environment);
    }
  }

  // ----- The compiled form -----

  datatype Bucket = Bucket(deny: seq<Rule>, allow: seq<Rule>)

  /** The rules of one effect that cover a subject, in policy order. */
  function Select(rules: seq<Rule>, subject: string, effect: Effect): (r: seq<Rule>)
    ensures forall rule :: rule in r <==> rule in rules && rule.effect == effect && Matches(rule.subjects, subject)
  {
    if rules == [] then []
    else
      (if rules[0].effect == effect && Matches(rules[0].subjects, subject) then [rules[0]] else [])
      + Select(rules[1..], subject, effect)
  }

  lemma {:induction false} SelectKeepsFirst(p: Policy, rules: seq<Rule>, q: Question, effect: Effect, verdict: Ternary)
    ensures FirstId(p, Select(rules, q.subject, effect), q, effect, verdict) == FirstId(p, rules, q, effect, verdict)
  {
    if rules != [] {
      SelectKeepsFirst(p, rules[1..], q, effect, verdict);
      var rest := Select(rules[1..], q.subject, effect);
      if rules[0].effect == effect && Matches(rules[0].subjects, q.subject) {
        assert Select(rules, q.subject, effect) == [rules[0]] + rest;
        assert ([rules[0]] + rest)[1..] == rest;
      } else {
        assert Select(rules, q.subject, effect) == rest;
      }
    }
  }

  datatype Decision = Decision(allowed: bool, reason: Reason, ruleId: Option<string>, unknownRoles: seq<Role>)

  /** A principal bound to a policy: its roles, expanded once. */
  datatype Binding = Binding(roles: set<Role>, unknown: seq<Role>)

  class AccessControl {
    const policy: Policy
    var closures: map<Role, set<Role>>
    var index: map<string, Bucket>

    ghost predicate Valid()
      reads this
    {
      && AreClosures(policy.roles, closures)
      && (forall subject :: subject in index <==> subject in policy.subjects)
      && (forall subject :: subject in index ==>
            index[subject] == Bucket(Select(policy.rules, subject, Deny), Select(policy.rules, subject, Allow)))
    }

    constructor (policy: Policy)
      ensures Valid() && this.policy == policy
    {
      this.policy := policy;
      closures, index := map[], map[];
      new;
      closures := BuildRoleClosures(policy.roles);
      for i := 0 to |policy.subjects|
        invariant this.policy == policy && AreClosures(policy.roles, closures)
        invariant forall subject :: subject in index <==> subject in policy.subjects[..i]
        invariant forall subject :: subject in index ==>
                    index[subject] == Bucket(Select(policy.rules, subject, Deny), Select(policy.rules, subject, Allow))
      {
        var subject := policy.subjects[i];
        index := index[subject := Bucket(Select(policy.rules, subject, Deny), Select(policy.rules, subject, Allow))];
      }
    }

    method For(claimed: Value) returns (binding: Binding)
      requires Valid()
      ensures Expanded(policy.roles, closures, Claims(claimed), binding.roles, binding.unknown)
    {
      var roles, unknown := ResolveEffectiveRoles(closures, claimed, policy.roles);
      binding := Binding(roles, unknown);
    }

    method MatchesRoles(rule: Rule, roles: set<Role>, ghost claims: seq<Role>) returns (r: bool)
      requires forall role :: role in roles <==> Holds(policy.roles, claims, role)
      ensures r <==> Targets(policy, rule, claims)
    {
      if rule.roles.None? {
        return true;
      }
      var declared := rule.roles.value;
      for i := 0 to |declared|
        invariant forall j :: 0 <= j < i ==> declared[j] !in roles
      {
        if declared[i] in roles {
          return true;
        }
      }
      r := false;
    }

    /** The deny scan: the first certain denial, or else whether one could not be evaluated. */
    method ScanDenies(denies: seq<Rule>, roles: set<Role>, ghost q: Question, action: string, environment: Environment)
      returns (certain: bool, unresolved: bool, ruleId: Option<string>)
      requires action == q.action && environment == q.environment
      requires forall role :: role in roles <==> Holds(policy.roles, q.claims, role)
      requires forall rule :: rule in denies ==> rule.effect == Deny && Matches(rule.subjects, q.subject)
      ensures certain <==> FiresIn(policy, denies, q, Deny, True)
      ensures !certain ==> (unresolved <==> FiresIn(policy, denies, q, Deny, Unknown))
      ensures certain ==> ruleId == FirstId(policy, denies, q, Deny, True)
      ensures !certain && unresolved ==> ruleId == FirstId(policy, denies, q, Deny, Unknown)
    {
      unresolved, ruleId := false, None;
      for i := 0 to |denies|
        invariant forall rule :: rule in denies[..i] ==> !Fires(policy, rule, q, Deny, True)
        invariant unresolved <==> exists rule :: rule in denies[..i] && Fires(policy, rule, q, Deny, Unknown)
        invariant FirstId(policy, denies, q, Deny, True) == FirstId(policy, denies[i..], q, Deny, True)
        invariant if unresolved then ruleId == FirstId(policy, denies, q, Deny, Unknown)
                  else FirstId(policy, denies, q, Deny, Unknown) == FirstId(policy, denies[i..], q, Deny, Unknown)
      {
        var rule := denies[i];
        assert denies[i..][1..] == denies[i + 1..];
        assert denies[..i + 1] == denies[..i] + [rule];
        if Matches(rule.actions, action) {
          var targeted := MatchesRoles(rule, roles, q.claims);
          if targeted {
            var verdict := Verdict(rule, environment);
            if verdict == True {
              assert Fires(policy, rule, q, Deny, True);
              return true, unresolved, rule.id;
            }
            if verdict == Unknown && !unresolved {
              unresolved, ruleId := true, rule.id;
            }
          }
        }
      }
      assert denies[..|denies|] == denies;
      certain := false;
    }

    /** The allow scan: an `allow` needs a certain verdict. */
    method ScanAllows(allows: seq<Rule>, roles: set<Role>, ghost q: Question, action: string, environment: Environment)
      returns (granted: bool, ruleId: Option<string>)
      requires action == q.action && environment == q.environment
      requires forall role :: role in roles <==> Holds(policy.roles, q.claims, role)
      requires forall rule :: rule in allows ==> rule.effect == Allow && Matches(rule.subjects, q.subject)
      ensures granted <==> FiresIn(policy, allows, q, Allow, True)
      ensures granted ==> ruleId == FirstId(policy, allows, q, Allow, True)
    {
      for i := 0 to |allows|
        invariant forall rule :: rule in allows[..i] ==> !Fires(policy, rule, q, Allow, True)
        invariant FirstId(policy, allows, q, Allow, True) == FirstId(policy, allows[i..], q, Allow, True)
      {
        var rule := allows[i];
        assert allows[i..][1..] == allows[i + 1..];
        assert allows[..i + 1] == allows[..i] + [rule];
        if Matches(rule.actions, action) {
          var targeted := MatchesRoles(rule, roles, q.claims);
          if targeted && Verdict(rule, environment) == True {
            assert Fires(policy, rule, q, Allow, True);
            return true, rule.id;
          }
        }
      }
      assert allows[..|allows|] == allows;
      granted, ruleId := false, None;
    }

    /** `decide`: answers, over the compiled form, exactly what the policy means. */
    method Decide(binding: Binding, action: string, subject: string, environment: Environment, ghost claims: seq<Role>)
      returns (decision: Decision)
      requires Valid() && Expanded(policy.roles, closures, claims, binding.roles, binding.unknown)
      ensures var q := Question(claims, action, subject, environment);
              && decision.reason == ReasonFor(policy, q)
              && decision.allowed == (decision.reason == Allowed)
              && decision.ruleId == IdFor(policy, q)
              && decision.unknownRoles == binding.unknown
    {
      if action !in policy.actions {
        return Decision(false, UnknownAction, None, binding.unknown);
      }
      if subject !in policy.subjects {
        return Decision(false, UnknownSubject, None, binding.unknown);
      }
      ghost var q := Question(claims, action, subject, environment);
      decision := DecideInBucket(index[subject], binding, q, action, environment);
    }

    /** `for(principal)`, then `explain`, of which `can` is the flag: roles and roots are read off the caller's data. */
    method Explain(principal: Value, action: string, subject: string, context: Value) returns (decision: Decision)
      requires Valid()
      ensures var claims := Claims(OwnProperty(principal, "roles"));
              var q := Question(claims, action, subject, Attributes(principal, context));
              && decision.reason == ReasonFor(policy, q)
              && decision.allowed == (decision.reason == Allowed)
              && decision.ruleId == IdFor(policy, q)
              && decision.unknownRoles == Undeclared(closures, claims)
    {
      var binding := For(OwnProperty(principal, "roles"));
      ghost var claims := Claims(OwnProperty(principal, "roles"));
      var environment := Environment(principal, OwnProperty(context, "resource"), OwnProperty(context, "env"));
      decision := Decide(binding, action, subject, environment, claims);
    }

    /** The two scans over the rules that cover the subject. */
    method DecideInBucket(bucket: Bucket, binding: Binding, ghost q: Question, action: string, environment: Environment)
      returns (decision: Decision)
      requires action == q.action && environment == q.environment
      requires q.action in policy.actions && q.subject in policy.subjects
      requires bucket == Bucket(Select(policy.rules, q.subject, Deny), Select(policy.rules, q.subject, Allow))
      requires forall role :: role in binding.roles <==> Holds(policy.roles, q.claims, role)
      ensures decision.reason == ReasonFor(policy, q) && decision.allowed == (decision.reason == Allowed)
      ensures decision.ruleId == IdFor(policy, q) && decision.unknownRoles == binding.unknown
    {
      var certain, unresolved, denyId := FindDenial(bucket.deny, binding.roles, q, action, environment);
      if certain {
        return Decision(false, ExplicitDeny, denyId, binding.unknown);
      }
      if unresolved {
        return Decision(false, UnresolvedDeny, denyId, binding.unknown);
      }
      var granted, allowId := FindGrant(bucket.allow, binding.roles, q, action, environment);
      decision := if granted then Decision(true, Allowed, allowId, binding.unknown)
                  else Decision(false, NoMatchingRule, None, binding.unknown);
    }

    /** The deny scan over a bucket, in terms of the whole policy. */
    method FindDenial(denies: seq<Rule>, roles: set<Role>, ghost q: Question, action: string, environment: Environment)
      returns (certain: bool, unresolved: bool, ruleId: Option<string>)
      requires action == q.action && environment == q.environment
      requires denies == Select(policy.rules, q.subject, Deny)
      requires forall role :: role in roles <==> Holds(policy.roles, q.claims, role)
      ensures certain <==> SomeFires(policy, q, Deny, True)
      ensures !certain ==> (unresolved <==> SomeFires(policy, q, Deny, Unknown))
      ensures certain ==> ruleId == FirstId(policy, policy.rules, q, Deny, True)
      ensures !certain && unresolved ==> ruleId == FirstId(policy, policy.rules, q, Deny, Unknown)
    {
      BucketDecides(q, Deny, True);
      BucketDecides(q, Deny, Unknown);
      certain, unresolved, ruleId := ScanDenies(denies, roles, q, action, environment);
    }

    /** The allow scan over a bucket, in terms of the whole policy. */
    method FindGrant(allows: seq<Rule>, roles: set<Role>, ghost q: Question, action: string, environment: Environment)
      returns (granted: bool, ruleId: Option<string>)
      requires action == q.action && environment == q.environment
      requires allows == Select(policy.rules, q.subject, Allow)
      requires forall role :: role in roles <==> Holds(policy.roles, q.claims, role)
      ensures granted <==> SomeFires(policy, q, Allow, True)
      ensures granted ==> ruleId == FirstId(policy, policy.rules, q, Allow, True)
    {
      BucketDecides(q, Allow, True);
      granted, ruleId := ScanAllows(allows, roles, q, action, environment);
    }

    /** Scanning a subject's bucket finds what scanning the whole policy finds. */
    lemma BucketDecides(q: Question, effect: Effect, verdict: Ternary)
      ensures SomeFires(policy, q, effect, verdict) <==>
              FiresIn(policy, Select(policy.rules, q.subject, effect), q, effect, verdict)
      ensures FirstId(policy, Select(policy.rules, q.subject, effect), q, effect, verdict) ==
              FirstId(policy, policy.rules, q, effect, verdict)
    {
      SelectKeepsFirst(policy, policy.rules, q, effect, verdict);
    }
  }
}
