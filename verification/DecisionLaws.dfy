/**
 What a decision says about the policy and the attributes it was made from
 (packages/access-control/src/engine.ts), rule by rule and without the scans.
 */
module DecisionLaws {
  import opened Options
  import opened JsValue
  import opened Truth
  import opened Conditions
  import opened OperatorLaws
  import opened Roles
  import opened Policy
  import opened Engine

  /** The rule names the subject and the action, or all of them, and is for everyone or for a role the caller holds. */
  ghost predicate Concerns(p: Policy, rule: Rule, q: Question) {
    && (rule.subjects == Everything || q.subject in rule.subjects.names)
    && (rule.actions == Everything || q.action in rule.actions.names)
    && (rule.roles == None
        || exists claim, role :: claim in q.claims && claim in p.roles && role in rule.roles.value
                                 && Reaches(p.roles, claim, role))
  }

  lemma ConcernsIsApplies(p: Policy, rule: Rule, q: Question)
    ensures Concerns(p, rule, q) <==> Applies(p, rule, q)
  {
    if rule.roles.Some? && Targets(p, rule, q.claims) {
      var role :| role in rule.roles.value && Holds(p.roles, q.claims, role);
      var claim :| claim in q.claims && claim in p.roles && Reaches(p.roles, claim, role);
    }
    if rule.roles.Some? && Concerns(p, rule, q) {
      var claim, role :| claim in q.claims && claim in p.roles && role in rule.roles.value
                         && Reaches(p.roles, claim, role);
      assert Holds(p.roles, q.claims, role);
    }
  }

  /** Some rule of that effect concerns the question and certainly holds. */
  ghost predicate Certain(p: Policy, q: Question, effect: Effect) {
    exists rule :: rule in p.rules && rule.effect == effect && Concerns(p, rule, q) && Satisfied(rule, q.environment)
  }

  /** Some `deny` concerns the question and is not ruled out. */
  ghost predicate Doubtful(p: Policy, q: Question) {
    exists rule :: rule in p.rules && rule.effect == Deny && Concerns(p, rule, q) && !Refuted(rule, q.environment)
  }

  lemma CertainFires(p: Policy, q: Question, effect: Effect)
    ensures Certain(p, q, effect) <==> SomeFires(p, q, effect, True)
  {
    forall rule | rule in p.rules
      ensures Fires(p, rule, q, effect, True) <==>
              rule.effect == effect && Concerns(p, rule, q) && Satisfied(rule, q.environment)
    {
      ConcernsIsApplies(p, rule, q);
    }
  }

  lemma DoubtfulFires(p: Policy, q: Question)
    ensures Doubtful(p, q) <==> SomeFires(p, q, Deny, True) || SomeFires(p, q, Deny, Unknown)
  {
    forall rule | rule in p.rules
      ensures Fires(p, rule, q, Deny, True) || Fires(p, rule, q, Deny, Unknown) <==>
              rule.effect == Deny && Concerns(p, rule, q) && !Refuted(rule, q.environment)
    {
      ConcernsIsApplies(p, rule, q);
    }
  }

  /** When each reason is given. Denials come first, and one that could not be evaluated counts as one. */
  lemma DecisionTable(p: Policy, q: Question)
    ensures var reason, declared := ReasonFor(p, q), q.action in p.actions && q.subject in p.subjects;
            && (reason == UnknownAction <==> q.action !in p.actions)
            && (reason == UnknownSubject <==> q.action in p.actions && q.subject !in p.subjects)
            && (reason == ExplicitDeny <==> declared && Certain(p, q, Deny))
            && (reason == UnresolvedDeny <==> declared && Doubtful(p, q) && !Certain(p, q, Deny))
            && (reason == Allowed <==> declared && !Doubtful(p, q) && Certain(p, q, Allow))
            && (reason == NoMatchingRule <==> declared && !Doubtful(p, q) && !Certain(p, q, Allow))
  {
    CertainFires(p, q, Deny);
    CertainFires(p, q, Allow);
    DoubtfulFires(p, q);
  }

  /** Where the first rule that fires stands in the policy. */
  lemma {:induction false} FirstFires(p: Policy, rules: seq<Rule>, q: Question, effect: Effect, verdict: Ternary)
    returns (i: nat)
    requires FiresIn(p, rules, q, effect, verdict)
    ensures i < |rules| && Fires(p, rules[i], q, effect, verdict)
    ensures FirstId(p, rules, q, effect, verdict) == rules[i].id
    ensures forall j :: 0 <= j < i ==> !Fires(p, rules[j], q, effect, verdict)
  {
    if Fires(p, rules[0], q, effect, verdict) {
      i := 0;
    } else {
      var k := FirstFires(p, rules[1..], q, effect, verdict);
      i := k + 1;
    }
  }

  /** A rule that gives the reason for a decision, as far as its own condition goes. */
  ghost predicate Gives(p: Policy, rule: Rule, q: Question, reason: Reason) {
    && Concerns(p, rule, q)
    && match reason
       case ExplicitDeny => rule.effect == Deny && Satisfied(rule, q.environment)
       case UnresolvedDeny =>
         rule.effect == Deny && !Satisfied(rule, q.environment) && !Refuted(rule, q.environment)
       case Allowed => rule.effect == Allow && Satisfied(rule, q.environment)
       case _ => false
  }

  lemma GivesIsFires(p: Policy, rule: Rule, q: Question)
    ensures Gives(p, rule, q, ExplicitDeny) <==> Fires(p, rule, q, Deny, True)
    ensures Gives(p, rule, q, UnresolvedDeny) <==> Fires(p, rule, q, Deny, Unknown)
    ensures Gives(p, rule, q, Allowed) <==> Fires(p, rule, q, Allow, True)
  {
    ConcernsIsApplies(p, rule, q);
  }

  /** The id reported is that of the first rule, in the order of the policy, that gives the reason. */
  lemma ReportedRuleIsFirst(p: Policy, q: Question) returns (i: nat)
    requires ReasonFor(p, q) in {ExplicitDeny, UnresolvedDeny, Allowed}
    ensures i < |p.rules| && IdFor(p, q) == p.rules[i].id && Gives(p, p.rules[i], q, ReasonFor(p, q))
    ensures forall j :: 0 <= j < i ==> !Gives(p, p.rules[j], q, ReasonFor(p, q))
  {
    var reason := ReasonFor(p, q);
    if reason == ExplicitDeny {
      i := FirstFires(p, p.rules, q, Deny, True);
    } else if reason == UnresolvedDeny {
      i := FirstFires(p, p.rules, q, Deny, Unknown);
    } else {
      i := FirstFires(p, p.rules, q, Allow, True);
    }
    forall j | 0 <= j <= i
      ensures Gives(p, p.rules[j], q, reason) <==>
              Fires(p, p.rules[j], q, if reason == Allowed then Allow else Deny,
                    if reason == UnresolvedDeny then Unknown else True)
    {
      GivesIsFires(p, p.rules[j], q);
    }
  }

  /** A decision does not depend on a root that no condition of the policy goes into. */
  lemma UnmentionedRootsDoNotDecide(p: Policy, q: Question, root: string, other: Environment)
    requires AgreeBut(root, q.environment, other)
    requires forall rule :: rule in p.rules && rule.when.Some? ==> !Mentions(rule.when.value, root)
    ensures ReasonFor(p, q.(environment := other)) == ReasonFor(p, q)
  {
    var q' := q.(environment := other);
    forall rule, effect, verdict | rule in p.rules
      ensures Fires(p, rule, q', effect, verdict) <==> Fires(p, rule, q, effect, verdict)
    {
      if rule.when.Some? {
        UnmentionedRootsDoNotMatter(rule.when.value, root, q.environment, other, 1);
      }
    }
  }

  // ----- Ownership -----

  /** The own property of an object, when there is a usable primitive there. */
  ghost predicate Carries(target: Value, key: string, p: Prim) {
    (target.Record? || target.List?) && key in target.own && target.own[key] == Scalar(p)
    && !p.NaN? && !p.Infinite?
  }

  lemma OwnPropertyIsRead(target: Value, key: string, p: Prim)
    requires Supplied(target)
    ensures ReadOwn(target, key) == Present(Scalar(p)) <==> Carries(target, key, p)
  {
    UsableValues(target, key);
  }

  /** A rule that compares an attribute of the resource with one of the principal certainly holds if they are equal. */
  lemma OwnershipHolds(environment: Environment, owner: string, id: string)
    requires '.' !in owner && '.' !in id
    ensures EvaluateCondition(Compare("resource." + owner, Eq, Ref("principal." + id)), environment) == True <==>
            exists p :: Carries(environment.resource, owner, p) && Carries(environment.principal, id, p)
  {
    PathsReadTheirRoot(environment, owner);
    PathsReadTheirRoot(environment, id);
    OtherPathsAreOpen(environment, "resource." + owner);
    OtherPathsAreOpen(environment, "principal." + id);
    var left, right := Resolve(environment, "resource." + owner), Resolve(environment, "principal." + id);
    assert EvaluateCondition(Compare("resource." + owner, Eq, Ref("principal." + id)), environment)
        == ApplyBinary(Eq, left, right);
    if ApplyBinary(Eq, left, right) == True {
      OwnPropertyIsRead(environment.resource, owner, left.value.prim);
      OwnPropertyIsRead(environment.principal, id, right.value.prim);
      assert Carries(environment.resource, owner, left.value.prim);
    }
    if p :| Carries(environment.resource, owner, p) && Carries(environment.principal, id, p) {
      OwnPropertyIsRead(environment.resource, owner, p);
      OwnPropertyIsRead(environment.principal, id, p);
    }
  }

  /** The roots are the principal and what the context has under `resource` and `env`; anything else supplies none. */
  lemma AttributesAreSupplied(principal: Value, context: Value)
    ensures var environment := Attributes(principal, context);
            && environment.principal == principal
            && ((context.Record? || context.List?) && "resource" in context.own ==>
                  environment.resource == context.own["resource"])
            && ((context.Record? || context.List?) && "env" in context.own ==> environment.env == context.own["env"])
            && (Supplied(environment.resource) ==>
                  (context.Record? || context.List?) && "resource" in context.own)
            && (Supplied(environment.env) ==> (context.Record? || context.List?) && "env" in context.own)
  {
  }

  /**
   Ownership, from the policy to the data: with one rule that allows when `owner` of the resource equals `id` of the
   principal, a check is allowed exactly when the resource passed in the context and the principal carry the same usable
   value there, whatever else they and the context hold.
   */
  lemma OwnersOnly(p: Policy, q: Question, principal: Value, context: Value, owner: string, id: string)
    requires '.' !in owner && '.' !in id && q.action in p.actions && q.subject in p.subjects
    requires q.environment == Attributes(principal, context)
    requires exists ruleId, description :: p.rules == [
               Rule(ruleId, description, Allow, Everything, Everything, None,
                    Some(Compare("resource." + owner, Eq, Ref("principal." + id))))]
    ensures ReasonFor(p, q) == Allowed <==>
            exists v ::
              && Carries(principal, id, v) && (context.Record? || context.List?) && "resource" in context.own
              && Carries(context.own["resource"], owner, v)
  {
    DecisionTable(p, q);
    OwnershipHolds(q.environment, owner, id);
    AttributesAreSupplied(principal, context);
    var rule := p.rules[0];
    assert rule in p.rules && Concerns(p, rule, q);
    assert forall other :: other in p.rules ==> other == rule;
  }
}
