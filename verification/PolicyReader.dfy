/**
 The validator as it runs: issues are collected while the normalised policy is built
 (packages/access-control/src/internal/validate.ts). Only the number of issues is kept.
 */
module PolicyReader {
  import opened Options
  import opened JsValue
  import opened Conditions
  import opened Roles
  import opened Policy
  import opened Validation

  class IssueCollector {
    var count: nat

    constructor ()
      ensures count == 0
    {
      count := 0;
    }

    method Add()
      modifies this
      ensures count == old(count) + 1
    {
      count := count + 1;
    }
  }

  /** What `issues` shows after reading something that is `acceptable`. */
  twostate predicate Reported(issues: IssueCollector, acceptable: bool)
    reads issues
  {
    old(issues.count) <= issues.count && (issues.count == old(issues.count) <==> acceptable)
  }

  /** After `i` items, `seen` holds the texts read, and `ok` says that none was refused. */
  ghost predicate TextsSoFar(items: seq<Value>, allowed: string -> bool, i: nat, ok: bool, seen: seq<string>)
    requires i <= |items|
  {
    var all, rest := Texts(items, allowed), Texts(items[i..], allowed);
    && (all.Some? <==> ok && rest.Some?)
    && (all.Some? ==> all.value == seen + rest.value)
  }

  lemma TextsStart(items: seq<Value>, allowed: string -> bool)
    ensures TextsSoFar(items, allowed, 0, true, [])
  {
  }

  lemma TextsStep(items: seq<Value>, allowed: string -> bool, i: nat, ok: bool, seen: seq<string>)
    requires i < |items| && TextsSoFar(items, allowed, i, ok, seen)
    ensures var text := TextOf(items[i]);
            if items[i].Hole? then TextsSoFar(items, allowed, i + 1, ok, seen)
            else if text.Some? && allowed(text.value) then TextsSoFar(items, allowed, i + 1, ok, seen + [text.value])
            else TextsSoFar(items, allowed, i + 1, false, seen)
  {
  }

  lemma TextsEnd(items: seq<Value>, allowed: string -> bool, ok: bool, seen: seq<string>)
    requires TextsSoFar(items, allowed, |items|, ok, seen)
    ensures Texts(items, allowed) == if ok then Some(seen) else None
  {
    assert seen + [] == seen;
  }

  lemma DedupStep(seen: seq<string>, name: string)
    ensures Dedup(seen + [name]) == if name in Dedup(seen) then Dedup(seen) else Dedup(seen) + [name]
  {
  }

  /** The loop shared by `readNameList`, the selectors and the role lists. */
  method CollectNames(items: seq<Value>, allowed: string -> bool, issues: IssueCollector) returns (names: seq<string>)
    modifies issues
    ensures Reported(issues, Texts(items, allowed).Some?)
    ensures Texts(items, allowed).Some? ==> names == Dedup(Texts(items, allowed).value)
  {
    names := [];
    ghost var seen: seq<string> := [];
    TextsStart(items, allowed);
    for i := 0 to |items|
      invariant old(issues.count) <= issues.count
      invariant TextsSoFar(items, allowed, i, issues.count == old(issues.count), seen)
      invariant names == Dedup(seen)
    {
      var text := TextOf(items[i]);
      TextsStep(items, allowed, i, issues.count == old(issues.count), seen);
      if items[i].Hole? {
        continue;
      }
      if text.None? || !allowed(text.value) {
        issues.Add();
      } else {
        DedupStep(seen, text.value);
        seen := seen + [text.value];
        if text.value !in names {
          names := names + [text.value];
        }
      }
    }
    TextsEnd(items, allowed, issues.count == old(issues.count), seen);
  }

  method ReadNameList(v: Value, issues: IssueCollector) returns (names: seq<string>)
    modifies issues
    ensures Reported(issues, NameList(v, x => Declarable(x)).Some?)
    ensures NameList(v, x => Declarable(x)).Some? ==> NameList(v, x => Declarable(x)) == Some(names)
  {
    if !v.List? {
      issues.Add();
      return [];
    }
    if v.items == [] {
      issues.Add();
      return [];
    }
    names := CollectNames(v.items, x => Declarable(x), issues);
  }

  method CheckPath(v: Value, issues: IssueCollector)
    modifies issues
    ensures Reported(issues, PathOf(v).Some?)
  {
    var text := TextOf(v);
    if text.None? || text.value == "" {
      issues.Add();
      return;
    }
    var segments := Split(text.value, '.');
    if segments[0] !in PATH_ROOTS {
      issues.Add();
      return;
    }
    if |segments| == 1 {
      issues.Add();
      return;
    }
    for i := 1 to |segments|
      invariant issues.count == old(issues.count)
      invariant forall j :: 1 <= j < i ==> segments[j] != "" && segments[j] !in FORBIDDEN_SEGMENTS
    {
      if segments[i] == "" {
        issues.Add();
        return;
      }
      if segments[i] in FORBIDDEN_SEGMENTS {
        issues.Add();
        return;
      }
    }
  }

  method ReadLeaf(v: Value, issues: IssueCollector) returns (c: Option<Condition>)
    requires v.Record?
    modifies issues
    ensures Reported(issues, CheckLeaf(v).Some?)
    ensures CheckLeaf(v).Some? ==> c == CheckLeaf(v)
  {
    if !(v.own.Keys <= {"path", "op", "value", "ref"}) {
      issues.Add();
      return None;
    }
    CheckPath(Own(v, "path"), issues);
    var path, op := TextOf(Own(v, "path")), TextOf(Own(v, "op"));
    var hasValue, hasRef := "value" in v.own, "ref" in v.own;
    if op == Some("exists") || op == Some("notExists") {
      if hasValue || hasRef {
        issues.Add();
        return None;
      }
      return if path.None? then None else Some(Presence(path.value, op.value == "exists"));
    }
    var operator := if op.Some? then OperatorNamed(op.value) else None;
    if operator.None? {
      issues.Add();
      return None;
    }
    if hasValue == hasRef {
      issues.Add();
      return None;
    }
    if path.None? {
      return None;
    }
    if hasRef {
      CheckPath(v.own["ref"], issues);
      var ref := TextOf(v.own["ref"]);
      return if ref.None? then None else Some(Compare(path.value, operator.value, Ref(ref.value)));
    }
    var literal := CheckLiteral(v.own["value"], operator.value);
    if literal.None? {
      issues.Add();
      return None;
    }
    return Some(Compare(path.value, operator.value, Constant(literal.value)));
  }

  /** Whenever no condition comes back, an issue was recorded; the comment at lines 426-429 relies on this. */
  method ReadCondition(v: Value, depth: nat, issues: IssueCollector) returns (c: Option<Condition>)
    modifies issues
    ensures Reported(issues, CheckCondition(v, depth).Some?)
    ensures CheckCondition(v, depth).Some? ==> c == CheckCondition(v, depth)
    decreases v, 1
  {
    if depth > MAX_CONDITION_DEPTH || !v.Record? {
      issues.Add();
      return None;
    }
    var combinators := {"all", "any", "not"} * v.own.Keys;
    if combinators == {} {
      c := ReadLeaf(v, issues);
      return;
    }
    if |v.own.Keys| > 1 {
      issues.Add();
      OneKey(v.own.Keys);
      return None;
    }
    OneKey(v.own.Keys);
    if "not" in v.own {
      var inner := ReadCondition(v.own["not"], depth + 1, issues);
      return if inner.None? then None else Some(Not(inner.value));
    }
    var key := if "all" in v.own then "all" else "any";
    if !v.own[key].List? {
      issues.Add();
      return None;
    }
    if v.own[key].items == [] {
      issues.Add();
      return None;
    }
    var operands := ReadEach(v.own[key].items, depth + 1, issues);
    if operands.None? {
      return None;
    }
    return Some(if key == "all" then AllOf(operands.value) else AnyOf(operands.value));
  }

  method ReadEach(items: seq<Value>, depth: nat, issues: IssueCollector) returns (cs: Option<seq<Condition>>)
    modifies issues
    ensures Reported(issues, CheckEach(items, depth).Some?)
    ensures CheckEach(items, depth).Some? ==> cs == CheckEach(items, depth)
    decreases items, 0
  {
    var read: seq<Condition> := [];
    var missing := false;
    for i := 0 to |items|
      invariant old(issues.count) <= issues.count
      invariant missing ==> old(issues.count) < issues.count
      invariant CheckEach(items, depth).Some? <==>
                issues.count == old(issues.count) && CheckEach(items[i..], depth).Some?
      invariant CheckEach(items, depth).Some? ==>
                CheckEach(items, depth).value == read + CheckEach(items[i..], depth).value
    {
      assert items[i..][1..] == items[i + 1..];
      if items[i].Hole? {
        read := read + [Gap];
        continue;
      }
      var c := ReadCondition(items[i], depth, issues);
      if c.Some? {
        read := read + [c.value];
      } else {
        missing := true;
      }
    }
    assert read + [] == read;
    return if missing then None else Some(read);
  }

  lemma OneKey(keys: set<string>)
    ensures forall key :: key in keys ==> (keys == {key} <==> |keys| <= 1)
  {
    forall key | key in keys
      ensures keys == {key} <==> |keys| <= 1
    {
      var rest := keys - {key};
      assert keys == rest + {key};
      assert |keys| == |rest| + 1;
    }
  }

  method ReadSelector(v: Value, declared: seq<string>, issues: IssueCollector) returns (s: Option<Selector>)
    modifies issues
    ensures Reported(issues, CheckSelector(v, declared).Some?)
    ensures CheckSelector(v, declared).Some? ==> s == CheckSelector(v, declared)
  {
    if v == Scalar(Text("*")) {
      return Some(Everything);
    }
    if !v.List? || v.items == [] {
      issues.Add();
      return None;
    }
    var names := CollectNames(v.items, x => x in declared, issues);
    return Some(Names(names));
  }

  method ReadRuleRoles(v: Value, roles: set<string>, issues: IssueCollector) returns (r: Option<seq<string>>)
    requires v.Record?
    modifies issues
    ensures Reported(issues, RolesField(v, roles).Some?)
    ensures RolesField(v, roles).Some? ==> RolesField(v, roles) == Some(r)
  {
    if "roles" !in v.own {
      return None;
    }
    var raw := v.own["roles"];
    if !raw.List? || raw.items == [] {
      issues.Add();
      return None;
    }
    var names := CollectNames(raw.items, x => x in roles, issues);
    return Some(names);
  }

  method ReadRule(v: Value, actions: seq<string>, subjects: seq<string>, roles: set<string>, issues: IssueCollector)
    returns (r: Option<Rule>)
    modifies issues
    ensures Reported(issues, CheckRule(v, actions, subjects, roles).Some?)
    ensures r == CheckRule(v, actions, subjects, roles)
  {
    if !v.Record? {
      issues.Add();
      return None;
    }
    var before := issues.count;
    var effect := CheckEffect(Own(v, "effect"));
    if effect.None? {
      issues.Add();
    }
    var ruleActions := ReadSelector(Own(v, "actions"), actions, issues);
    var ruleSubjects := ReadSelector(Own(v, "subjects"), subjects, issues);
    var ruleRoles := ReadRuleRoles(v, roles, issues);
    var when: Option<Condition> := None;
    if "when" in v.own {
      when := ReadCondition(v.own["when"], 1, issues);
    }
    var id, description := None, None;
    if "id" in v.own {
      id := NonEmptyText(v.own["id"]);
      if id.None? {
        issues.Add();
      }
    }
    if "description" in v.own {
      description := TextOf(v.own["description"]);
      if description.None? {
        issues.Add();
      }
    }
    if !(v.own.Keys <= RULE_KEYS) {
      issues.Add();
    }
    if issues.count > before {
      return None;
    }
    return Some(Rule(id, description, effect.value, ruleActions.value, ruleSubjects.value, ruleRoles, when));
  }

  /** The array form of `roles`: each name inherits nothing. */
  method ReadRoleList(items: seq<Value>, issues: IssueCollector) returns (inherits: Inherits)
    modifies issues
    ensures Reported(issues, RoleList(items).Some?)
    ensures RoleList(items).Some? ==> RoleList(items) == Some(inherits)
  {
    inherits := map[];
    ghost var seen: seq<string> := [];
    TextsStart(items, x => RoleName(x));
    for i := 0 to |items|
      invariant old(issues.count) <= issues.count
      invariant TextsSoFar(items, x => RoleName(x), i, issues.count == old(issues.count), seen)
      invariant inherits == Childless(seen)
    {
      var text := TextOf(items[i]);
      TextsStep(items, x => RoleName(x), i, issues.count == old(issues.count), seen);
      if items[i].Hole? {
        continue;
      }
      if text.None? || text.value == "" {
        issues.Add();
      } else if text.value in FORBIDDEN_SEGMENTS {
        issues.Add();
      } else {
        seen := seen + [text.value];
        inherits := inherits[text.value := []];
      }
    }
    TextsEnd(items, x => RoleName(x), issues.count == old(issues.count), seen);
  }

  method ReadParents(v: Value, declared: set<string>, issues: IssueCollector) returns (parents: seq<string>)
    modifies issues
    ensures Reported(issues, RoleParents(v, declared).Some?)
    ensures RoleParents(v, declared).Some? ==> RoleParents(v, declared) == Some(parents)
  {
    if !v.List? {
      issues.Add();
      return [];
    }
    parents := CollectNames(v.items, x => x in declared, issues);
  }

  /** The first pass over the map form of `roles`: the usable names. */
  method ReadRoleNames(own: map<string, Value>, issues: IssueCollector) returns (declared: set<string>)
    modifies issues
    ensures Reported(issues, forall role :: role in own ==> RoleName(role))
    ensures declared == set role | role in own && RoleName(role)
  {
    declared := {};
    var pending := own.Keys;
    while pending != {}
      invariant pending <= own.Keys
      invariant declared == set role | role in own.Keys - pending && RoleName(role)
      invariant Reported(issues, forall role :: role in own.Keys - pending ==> RoleName(role))
    {
      var role :| role in pending;
      assert own.Keys - (pending - {role}) == own.Keys - pending + {role};
      pending := pending - {role};
      assert role in own.Keys - pending;
      if role == "" {
        issues.Add();
      } else if role in FORBIDDEN_SEGMENTS {
        issues.Add();
      } else {
        declared := declared + {role};
      }
    }
  }

  /** The second pass: what each declared role inherits. */
  method ReadInherited(own: map<string, Value>, declared: set<string>, issues: IssueCollector)
    returns (inherits: Inherits)
    requires declared <= own.Keys
    modifies issues
    ensures Reported(issues, forall role :: role in declared ==> RoleParents(own[role], declared).Some?)
    ensures issues.count == old(issues.count) ==>
              inherits.Keys == declared
              && forall role :: role in declared ==> Some(inherits[role]) == RoleParents(own[role], declared)
  {
    inherits := map[];
    var pending := declared;
    while pending != {}
      invariant pending <= declared && inherits.Keys == declared - pending
      invariant Reported(issues, forall role :: role in declared - pending ==> RoleParents(own[role], declared).Some?)
      invariant issues.count == old(issues.count) ==>
                  forall role :: role in declared - pending ==>
                    Some(inherits[role]) == RoleParents(own[role], declared)
    {
      var role :| role in pending;
      pending := pending - {role};
      var parents := ReadParents(own[role], declared, issues);
      inherits := inherits[role := parents];
    }
  }

  method ReadRoleMap(own: map<string, Value>, issues: IssueCollector) returns (inherits: Inherits)
    modifies issues
    ensures Reported(issues, RolesDeclared(own))
    ensures RolesDeclared(own) ==> inherits == Graph(own)
  {
    var declared := ReadRoleNames(own, issues);
    assert (forall role :: role in own ==> RoleName(role)) ==> declared == own.Keys;
    inherits := ReadInherited(own, declared, issues);
  }

  method ReadRoleGraph(v: Value, issues: IssueCollector) returns (inherits: Inherits)
    modifies issues
    ensures Reported(issues, ReadRoles(v).Some?)
    ensures ReadRoles(v).Some? ==> ReadRoles(v) == Some(inherits)
  {
    if v.Undefined? {
      return map[];
    }
    if v.List? {
      inherits := ReadRoleList(v.items, issues);
      return;
    }
    if !v.Record? {
      issues.Add();
      return map[];
    }
    inherits := ReadRoleMap(v.own, issues);
  }

  /** The rules read so far, in front of what the rest would give. */
  ghost predicate RulesSoFar(items: seq<Value>, actions: seq<string>, subjects: seq<string>, roles: set<string>,
                             i: nat, ok: bool, read: seq<Rule>)
    requires i <= |items|
  {
    var all, rest := CheckRules(items, actions, subjects, roles), CheckRules(items[i..], actions, subjects, roles);
    && (all.Some? <==> ok && rest.Some?)
    && (all.Some? ==> all.value == read + rest.value)
  }

  lemma RulesStart(items: seq<Value>, actions: seq<string>, subjects: seq<string>, roles: set<string>)
    ensures RulesSoFar(items, actions, subjects, roles, 0, true, [])
  {
  }

  lemma RulesStep(items: seq<Value>, actions: seq<string>, subjects: seq<string>, roles: set<string>,
                  i: nat, ok: bool, read: seq<Rule>)
    requires i < |items| && RulesSoFar(items, actions, subjects, roles, i, ok, read)
    ensures var rule := CheckRule(items[i], actions, subjects, roles);
            if items[i].Hole? then RulesSoFar(items, actions, subjects, roles, i + 1, ok, read)
            else if rule.Some? then RulesSoFar(items, actions, subjects, roles, i + 1, ok, read + [rule.value])
            else RulesSoFar(items, actions, subjects, roles, i + 1, false, read)
  {
  }

  lemma RulesEnd(items: seq<Value>, actions: seq<string>, subjects: seq<string>, roles: set<string>,
                 ok: bool, read: seq<Rule>)
    requires RulesSoFar(items, actions, subjects, roles, |items|, ok, read)
    ensures CheckRules(items, actions, subjects, roles) == if ok then Some(read) else None
  {
    assert read + [] == read;
  }

  function Ids(rules: seq<Rule>): set<string> {
    set rule | rule in rules && rule.id.Some? :: rule.id.value
  }

  /** `rules` are those read so far; a duplicate id is an issue of its own, and such a rule is dropped. */
  method ReadRules(items: seq<Value>, actions: seq<string>, subjects: seq<string>, roles: set<string>,
                   issues: IssueCollector)
    returns (rules: seq<Rule>)
    modifies issues
    ensures Reported(issues, CheckRules(items, actions, subjects, roles).Some?
                             && UniqueIds(CheckRules(items, actions, subjects, roles).value))
    ensures issues.count == old(issues.count) ==> CheckRules(items, actions, subjects, roles) == Some(rules)
  {
    rules := [];
    var seenIds: set<string> := {};
    ghost var read: seq<Rule> := [];
    ghost var readable := true;
    RulesStart(items, actions, subjects, roles);
    for i := 0 to |items|
      invariant RulesSoFar(items, actions, subjects, roles, i, readable, read)
      invariant Reported(issues, readable && UniqueIds(read))
      invariant seenIds == Ids(rules) && (issues.count == old(issues.count) ==> rules == read)
    {
      RulesStep(items, actions, subjects, roles, i, readable, read);
      if items[i].Hole? {
        continue;
      }
      var checked := ReadRule(items[i], actions, subjects, roles, issues);
      if checked.None? {
        readable := false;
      } else {
        UniqueStep(read, checked.value);
        read := read + [checked.value];
        if checked.value.id.Some? && checked.value.id.value in seenIds {
          issues.Add();
        } else {
          if checked.value.id.Some? {
            seenIds := seenIds + {checked.value.id.value};
          }
          IdsStep(rules, checked.value);
          rules := rules + [checked.value];
        }
      }
    }
    RulesEnd(items, actions, subjects, roles, readable, read);
  }

  lemma IdsStep(rules: seq<Rule>, next: Rule)
    ensures Ids(rules + [next]) == Ids(rules) + if next.id.Some? then {next.id.value} else {}
  {
  }

  lemma UniqueStep(rules: seq<Rule>, next: Rule)
    ensures UniqueIds(rules + [next]) <==> UniqueIds(rules) && (next.id.Some? ==> next.id.value !in Ids(rules))
  {
    var longer := rules + [next];
    if UniqueIds(longer) {
      assert forall i, j :: 0 <= i < j < |rules| ==> longer[i] == rules[i] && longer[j] == rules[j];
    }
    if next.id.Some? && next.id.value in Ids(rules) {
      var i :| 0 <= i < |rules| && rules[i].id == next.id;
      assert longer[i].id == longer[|rules|].id;
    }
  }

  /** `validatePolicy`: a policy comes back exactly when no issue was collected, and it is the normalised one. */
  method ValidatePolicy(v: Value) returns (policy: Option<Policy>)
    ensures policy == Validate(v)
  {
    var issues := new IssueCollector();
    if !v.Record? {
      return None;
    }
    var actions := ReadNameList(Own(v, "actions"), issues);
    var subjects := ReadNameList(Own(v, "subjects"), issues);
    var roleGraph := ReadRoleGraph(Own(v, "roles"), issues);
    var rules: seq<Rule> := [];
    if !Own(v, "rules").List? {
      issues.Add();
    } else {
      rules := ReadRules(Own(v, "rules").items, actions, subjects, roleGraph.Keys, issues);
    }
    if !(v.own.Keys <= POLICY_KEYS) {
      issues.Add();
    }
    if issues.count > 0 {
      return None;
    }
    return Some(Policy(actions, subjects, roleGraph, rules));
  }
}
