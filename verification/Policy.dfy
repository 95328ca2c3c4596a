/** Policies after validation (packages/access-control/src/policy.ts). */
module Policy {
  import opened Options
  import opened Conditions
  import opened Roles

  datatype Effect = Allow | Deny

  datatype Selector = Everything | Names(names: seq<string>)

  datatype Rule = Rule(
    id: Option<string>,
    description: Option<string>,
    effect: Effect,
    actions: Selector,
    subjects: Selector,
    roles: Option<seq<Role>>,
    when: Option<Condition>)

  datatype Policy = Policy(actions: seq<string>, subjects: seq<string>, roles: Inherits, rules: seq<Rule>)
}
