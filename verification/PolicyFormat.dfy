/**
 What an accepted policy says, field by field and in the words of the format it is written in
 (packages/access-control/src/policy.ts and conditions.ts).
 */
module PolicyFormat {
  import opened Options
  import opened JsValue
  import opened Truth
  import opened Conditions
  import opened OperatorLaws
  import opened Roles
  import opened Policy
  import opened Validation

  function Word(text: string): Value {
    Scalar(Text(text))
  }

  /** The word for each operator. */
  predicate IsWordFor(word: string, op: Operator) {
    match op
    case Eq => word == "eq"
    case Ne => word == "ne"
    case Gt => word == "gt"
    case Gte => word == "gte"
    case Lt => word == "lt"
    case Lte => word == "lte"
    case Contains => word == "contains"
    case In => word == "in"
    case Nin => word == "nin"
  }

  // ----- Paths -----

  const ROOTS: set<string> := {"principal", "resource", "env"}
  const RESERVED: set<string> := {"__proto__", "constructor", "prototype"}

  /** One of the three roots, and then at least one segment, none of them empty or reserved. */
  predicate IsAttributePath(segments: seq<string>) {
    && |segments| > 1 && segments[0] in ROOTS
    && forall i :: 0 < i < |segments| ==> segments[i] != "" && segments[i] !in RESERVED && '.' !in segments[i]
  }

  lemma {:induction false} JoinSplits(parts: seq<string>)
    requires parts != [] && forall i :: 0 <= i < |parts| ==> '.' !in parts[i]
    ensures Split(Join(parts, '.'), '.') == parts
  {
    if |parts| == 1 {
      SplitOnce(parts[0], '.');
      assert parts == [parts[0]];
    } else {
      var rest := Join(parts[1..], '.');
      JoinSplits(parts[1..]);
      assert forall i :: 0 <= i < |parts[1..]| ==> parts[1..][i] == parts[i + 1];
      SplitFirst(Join(parts, '.'), parts[0], '.');
      assert Join(parts, '.')[|parts[0]| + 1..] == rest;
      assert parts == [parts[0]] + parts[1..];
    }
  }

  /** A text is accepted as a path exactly when it is such segments joined by dots. */
  lemma PathAcceptedIff(path: string)
    ensures WalkablePath(path) <==> exists segments :: IsAttributePath(segments) && path == Join(segments, '.')
  {
    SplitJoins(path, '.');
    if WalkablePath(path) {
      var segments := Split(path, '.');
      assert forall i :: 0 <= i < |segments| ==> segments[i] in segments;
      assert IsAttributePath(segments);
    }
    if segments :| IsAttributePath(segments) && path == Join(segments, '.') {
      JoinSplits(segments);
    }
  }

  // ----- Conditions -----

  /** `v` is `c`, as conditions are written. */
  predicate Says(v: Value, c: Condition)
    decreases c, 1
  {
    v.Record? &&
    match c
    case AllOf(operands) => v.own.Keys == {"all"} && v.own["all"].List? && SayEach(v.own["all"].items, operands)
    case AnyOf(operands) => v.own.Keys == {"any"} && v.own["any"].List? && SayEach(v.own["any"].items, operands)
    case Not(inner) => v.own.Keys == {"not"} && Says(v.own["not"], inner)
    case Presence(path, wanted) =>
      && v.own.Keys == {"path", "op"} && v.own["path"] == Word(path)
      && v.own["op"] == Word(if wanted then "exists" else "notExists")
    case Compare(path, op, Ref(ref)) =>
      && v.own.Keys == {"path", "op", "ref"} && v.own["path"] == Word(path) && v.own["ref"] == Word(ref)
      && SaysOperator(v.own["op"], op)
    case Compare(path, op, Constant(literal)) =>
      && v.own.Keys == {"path", "op", "value"} && v.own["path"] == Word(path)
      && SaysOperator(v.own["op"], op) && SaysLiteral(v.own["value"], literal)
    case _ => false
  }

  predicate SaysOperator(v: Value, op: Operator) {
    v.Scalar? && v.prim.Text? && IsWordFor(v.prim.text, op)
  }

  predicate SaysLiteral(v: Value, literal: Literal) {
    match literal
    case One(p) => v == Scalar(p)
    case Many(items) =>
      && v.List? && |v.items| == |items|
      && forall i :: 0 <= i < |items| ==> items[i] == if v.items[i] == Hole then Undefined else v.items[i]
  }

  predicate SayEach(items: seq<Value>, cs: seq<Condition>)
    decreases cs, 0
  {
    |items| == |cs| &&
    (cs == [] || ((if items[0] == Hole then cs[0] == Gap else Says(items[0], cs[0])) && SayEach(items[1..], cs[1..])))
  }

  lemma OperatorIsSaid(v: Value, op: Operator)
    requires TextOf(v).Some? && OperatorNamed(TextOf(v).value) == Some(op)
    ensures SaysOperator(v, op)
  {
  }

  lemma LeafIsSaid(v: Value, c: Condition)
    requires v.Record? && CheckLeaf(v) == Some(c)
    ensures Says(v, c)
  {
    if c.Compare? {
      OperatorIsSaid(Own(v, "op"), c.op);
      assert v.own.Keys == {"path", "op", if c.operand.Ref? then "ref" else "value"};
    } else {
      assert v.own.Keys == {"path", "op"};
    }
  }

  /** What is accepted as a condition says that condition. */
  lemma {:induction false} AcceptedSays(v: Value, depth: nat)
    requires CheckCondition(v, depth).Some?
    ensures Says(v, CheckCondition(v, depth).value)
    decreases v, 1
  {
    if "not" in v.own {
      AcceptedSays(v.own["not"], depth + 1);
    } else if "all" in v.own {
      AcceptedSayEach(v.own["all"].items, depth + 1);
    } else if "any" in v.own {
      AcceptedSayEach(v.own["any"].items, depth + 1);
    } else {
      LeafIsSaid(v, CheckLeaf(v).value);
    }
  }

  lemma {:induction false} AcceptedSayEach(items: seq<Value>, depth: nat)
    requires CheckEach(items, depth).Some?
    ensures SayEach(items, CheckEach(items, depth).value)
    decreases items, 0
  {
    if items != [] {
      if !items[0].Hole? {
        AcceptedSays(items[0], depth);
      }
      AcceptedSayEach(items[1..], depth);
      var cs := CheckEach(items, depth).value;
      assert cs[1..] == CheckEach(items[1..], depth).value;
    }
  }

  // ----- Rules and policies -----

  /** The names a list holds, each once. */
  ghost predicate SaysNames(v: Value, names: seq<string>) {
    && v.List? && v.items != []
    && (forall name :: name in names <==> Word(name) in v.items)
    && (forall item :: item in v.items ==> item == Hole || (item.Scalar? && item.prim.Text?))
    && forall i, j :: 0 <= i < j < |names| ==> names[i] != names[j]
  }

  lemma {:induction false} TextsAreSaid(items: seq<Value>, allowed: string -> bool, name: string)
    requires Texts(items, allowed).Some?
    ensures name in Texts(items, allowed).value <==> Word(name) in items
    ensures forall item :: item in items ==> item == Hole || (item.Scalar? && item.prim.Text?)
  {
    if items != [] {
      TextsAreSaid(items[1..], allowed, name);
      assert items == [items[0]] + items[1..];
    }
  }

  /** The name at `q` is written at `p`, and whatever is written before that comes before `q`. */
  lemma {:induction false} WrittenAt(items: seq<Value>, allowed: string -> bool, q: nat) returns (p: nat)
    requires Texts(items, allowed).Some? && q < |Texts(items, allowed).value|
    ensures p < |items| && items[p] == Word(Texts(items, allowed).value[q])
    ensures forall name :: Word(name) in items[..p] ==> name in Texts(items, allowed).value[..q]
  {
    var texts := Texts(items, allowed).value;
    if items[0].Hole? {
      p := WrittenAt(items[1..], allowed, q);
      assert items[..p + 1] == [Hole] + items[1..][..p];
      p := p + 1;
    } else if q == 0 {
      p := 0;
    } else {
      p := WrittenAt(items[1..], allowed, q - 1);
      assert items[..p + 1] == [items[0]] + items[1..][..p];
      assert texts[..q] == [texts[0]] + Texts(items[1..], allowed).value[..q - 1];
      p := p + 1;
    }
  }

  lemma {:induction false} DedupInOrder(s: seq<string>, i: nat, j: nat)
    requires i < j < |Dedup(s)|
    ensures StandsBefore(s, Dedup(s)[i], Dedup(s)[j])
  {
    var names, n := Dedup(s), |s| - 1;
    if j < |Dedup(s[..n])| {
      DedupInOrder(s[..n], i, j);
      var p :| 0 <= p < n && s[p] == names[i] && names[j] !in s[..n][..p + 1];
      assert s[..n][..p + 1] == s[..p + 1];
    } else {
      assert names[i] == Dedup(s[..n])[i] && names[i] in s[..n];
      var p :| 0 <= p < n && s[..n][p] == names[i];
      assert forall name :: name in s[..p + 1] ==> name in s[..n];
      assert s[p] == names[i] && names[j] !in s[..p + 1];
    }
  }

  /** The names of a list come out in the order in which they are first written. */
  lemma NamesAreInOrder(v: Value, allowed: string -> bool, i: nat, j: nat)
    requires NameList(v, allowed).Some? && i < j < |NameList(v, allowed).value|
    ensures var names := NameList(v, allowed).value; StandsBefore(v.items, Word(names[i]), Word(names[j]))
  {
    var names, texts := NameList(v, allowed).value, Texts(v.items, allowed).value;
    DedupInOrder(texts, i, j);
    var q :| 0 <= q < |texts| && texts[q] == names[i] && names[j] !in texts[..q + 1];
    var p := WrittenAt(v.items, allowed, q);
    assert texts[..q + 1] == texts[..q] + [texts[q]];
    assert v.items[..p + 1] == v.items[..p] + [v.items[p]];
  }

  lemma NamesAreSaid(v: Value, allowed: string -> bool)
    requires NameList(v, allowed).Some?
    ensures SaysNames(v, NameList(v, allowed).value)
  {
    forall name
      ensures name in NameList(v, allowed).value <==> Word(name) in v.items
    {
      TextsAreSaid(v.items, allowed, name);
    }
    TextsAreSaid(v.items, allowed, "");
  }

  ghost predicate SaysSelector(v: Value, selector: Selector) {
    match selector
    case Everything => v == Word("*")
    case Names(names) => SaysNames(v, names)
  }

  /** An optional field is there exactly when there is something for it. */
  ghost predicate SaysText(v: Value, key: string, text: Option<string>)
    requires v.Record?
  {
    if text.None? then key !in v.own else key in v.own && v.own[key] == Word(text.value)
  }

  /** `v` is the rule `r`, as rules are written. */
  ghost predicate SaysRule(v: Value, r: Rule) {
    && v.Record? && v.own.Keys <= {"id", "description", "effect", "actions", "subjects", "roles", "when"}
    && {"effect", "actions", "subjects"} <= v.own.Keys
    && v.own["effect"] == Word(if r.effect.Allow? then "allow" else "deny")
    && SaysSelector(v.own["actions"], r.actions) && SaysSelector(v.own["subjects"], r.subjects)
    && (if r.roles.None? then "roles" !in v.own else "roles" in v.own && SaysNames(v.own["roles"], r.roles.value))
    && (if r.when.None? then "when" !in v.own else "when" in v.own && Says(v.own["when"], r.when.value))
    && SaysText(v, "id", r.id) && SaysText(v, "description", r.description)
  }

  lemma SelectorIsSaid(v: Value, declared: seq<string>)
    requires CheckSelector(v, declared).Some?
    ensures SaysSelector(v, CheckSelector(v, declared).value)
  {
    if v != Word("*") {
      NamesAreSaid(v, x => x in declared);
    }
  }

  lemma RolesAreSaid(v: Value, roles: set<string>)
    requires v.Record? && RolesField(v, roles).Some?
    ensures var read := RolesField(v, roles).value;
            if read.None? then "roles" !in v.own else "roles" in v.own && SaysNames(v.own["roles"], read.value)
  {
    if "roles" in v.own {
      NamesAreSaid(v.own["roles"], x => x in roles);
    }
  }

  lemma WhenIsSaid(v: Value)
    requires v.Record? && WhenField(v).Some?
    ensures var read := WhenField(v).value;
            if read.None? then "when" !in v.own else "when" in v.own && Says(v.own["when"], read.value)
  {
    if "when" in v.own {
      AcceptedSays(v.own["when"], 1);
    }
  }

  lemma AcceptedRuleSays(v: Value, actions: seq<string>, subjects: seq<string>, roles: set<string>)
    requires CheckRule(v, actions, subjects, roles).Some?
    ensures SaysRule(v, CheckRule(v, actions, subjects, roles).value)
  {
    SelectorIsSaid(Own(v, "actions"), actions);
    SelectorIsSaid(Own(v, "subjects"), subjects);
    RolesAreSaid(v, roles);
    WhenIsSaid(v);
  }

  /** The rules of a list, holes passed over. */
  ghost predicate SayRules(items: seq<Value>, rules: seq<Rule>)
    decreases |items|
  {
    if items == [] then rules == []
    else if items[0] == Hole then SayRules(items[1..], rules)
    else rules != [] && SaysRule(items[0], rules[0]) && SayRules(items[1..], rules[1..])
  }

  lemma {:induction false} AcceptedRulesSay(items: seq<Value>, actions: seq<string>, subjects: seq<string>,
                                            roles: set<string>)
    requires CheckRules(items, actions, subjects, roles).Some?
    ensures SayRules(items, CheckRules(items, actions, subjects, roles).value)
  {
    if items != [] {
      AcceptedRulesSay(items[1..], actions, subjects, roles);
      if !items[0].Hole? {
        AcceptedRuleSays(items[0], actions, subjects, roles);
        var rules := CheckRules(items, actions, subjects, roles).value;
        assert rules[1..] == CheckRules(items[1..], actions, subjects, roles).value;
      }
    }
  }

  /** The roles declared, and what each inherits; the list form declares roles that inherit nothing. */
  ghost predicate SaysRoles(v: Value, inherits: Inherits) {
    match v
    case Undefined => inherits == map[]
    case List(items, _) =>
      && (forall role :: role in inherits <==> Word(role) in items)
      && (forall role :: role in inherits ==> inherits[role] == [])
    case Record(own) =>
      && own.Keys == inherits.Keys
      && (forall role :: role in own ==> own[role].List?)
      && (forall role, parent :: role in own ==> (parent in inherits[role] <==> Word(parent) in own[role].items))
    case _ => false
  }

  lemma ParentsAreSaid(v: Value, declared: set<string>, parent: string)
    requires RoleParents(v, declared).Some?
    ensures parent in RoleParents(v, declared).value <==> Word(parent) in v.items
  {
    TextsAreSaid(v.items, x => x in declared, parent);
  }

  lemma AcceptedRolesSay(v: Value)
    requires ReadRoles(v).Some?
    ensures SaysRoles(v, ReadRoles(v).value)
  {
    if v.List? {
      forall role
        ensures role in ReadRoles(v).value <==> Word(role) in v.items
      {
        TextsAreSaid(v.items, x => RoleName(x), role);
      }
    } else if v.Record? {
      var inherits := Graph(v.own);
      forall role, parent | role in v.own
        ensures parent in inherits[role] <==> Word(parent) in v.own[role].items
      {
        ParentsAreSaid(v.own[role], v.own.Keys, parent);
      }
    }
  }

  ghost predicate SaysPolicy(v: Value, p: Policy) {
    && v.Record? && v.own.Keys <= {"actions", "subjects", "roles", "rules"}
    && {"actions", "subjects", "rules"} <= v.own.Keys
    && SaysNames(v.own["actions"], p.actions) && SaysNames(v.own["subjects"], p.subjects)
    && SaysRoles(if "roles" in v.own then v.own["roles"] else Undefined, p.roles)
    && v.own["rules"].List? && SayRules(v.own["rules"].items, p.rules)
  }

  lemma FieldsAreSaid(v: Value, p: Policy)
    requires Validate(v) == Some(p)
    ensures v.Record? && v.own.Keys <= POLICY_KEYS
    ensures SaysNames(Own(v, "actions"), p.actions) && SaysNames(Own(v, "subjects"), p.subjects)
    ensures SaysRoles(Own(v, "roles"), p.roles) && Own(v, "rules").List? && SayRules(Own(v, "rules").items, p.rules)
  {
    AcceptedFields(v, p);
    NamesAreSaid(Own(v, "actions"), x => Declarable(x));
    NamesAreSaid(Own(v, "subjects"), x => Declarable(x));
    AcceptedRolesSay(Own(v, "roles"));
    AcceptedRulesSay(Own(v, "rules").items, p.actions, p.subjects, p.roles.Keys);
  }

  lemma PolicyIsSaid(v: Value, p: Policy)
    requires v.Record? && v.own.Keys <= POLICY_KEYS
    requires SaysNames(Own(v, "actions"), p.actions) && SaysNames(Own(v, "subjects"), p.subjects)
    requires SaysRoles(Own(v, "roles"), p.roles) && Own(v, "rules").List? && SayRules(Own(v, "rules").items, p.rules)
    ensures SaysPolicy(v, p)
  {
    FieldIsThere(v, "actions");
    FieldIsThere(v, "subjects");
    FieldIsThere(v, "rules");
    assert Own(v, "roles") == if "roles" in v.own then v.own["roles"] else Undefined;
  }

  lemma FieldIsThere(v: Value, key: string)
    requires v.Record? && Own(v, key).List?
    ensures key in v.own && v.own[key] == Own(v, key)
  {
  }

  /** An accepted policy is what was written: every word, name, operator, effect and literal of it. */
  lemma AcceptedPolicySays(v: Value)
    requires Validate(v).Some?
    ensures SaysPolicy(v, Validate(v).value)
  {
    FieldsAreSaid(v, Validate(v).value);
    PolicyIsSaid(v, Validate(v).value);
  }

  // ----- Limits -----

  /** Every element is a hole or a string that is allowed. */
  ghost predicate HoldsTexts(items: seq<Value>, allowed: string -> bool) {
    forall item :: item in items ==> item == Hole || (item.Scalar? && item.prim.Text? && allowed(item.prim.text))
  }

  lemma {:induction false} TextsAcceptedIff(items: seq<Value>, allowed: string -> bool)
    ensures Texts(items, allowed).Some? <==> HoldsTexts(items, allowed)
  {
    if items != [] {
      TextsAcceptedIff(items[1..], allowed);
      assert items == [items[0]] + items[1..];
    }
  }

  /** The list of actions or subjects: an array with something in it, of names that can be declared. */
  lemma NameListAcceptedIff(v: Value)
    ensures NameList(v, x => Declarable(x)).Some? <==>
              v.List? && v.items != [] && HoldsTexts(v.items, name => name != "" && name != "*")
  {
    if v.List? {
      TextsAcceptedIff(v.items, x => Declarable(x));
      assert HoldsTexts(v.items, x => Declarable(x)) <==> HoldsTexts(v.items, name => name != "" && name != "*");
    }
  }

  /** Either form of roles, or none: usable names, and what a role inherits is declared as well. */
  lemma RolesAcceptedIff(v: Value)
    ensures ReadRoles(v).Some? <==>
              match v
              case Undefined => true
              case List(items, _) => HoldsTexts(items, name => name != "" && name !in RESERVED)
              case Record(own) =>
                forall role :: role in own ==>
                  && role != "" && role !in RESERVED && own[role].List?
                  && HoldsTexts(own[role].items, parent => parent in own)
              case _ => false
  {
    if v.List? {
      TextsAcceptedIff(v.items, x => RoleName(x));
      assert HoldsTexts(v.items, x => RoleName(x)) <==>
             HoldsTexts(v.items, name => name != "" && name !in RESERVED);
    } else if v.Record? {
      forall role | role in v.own && v.own[role].List?
        ensures RoleParents(v.own[role], v.own.Keys).Some? <==>
                HoldsTexts(v.own[role].items, parent => parent in v.own)
      {
        TextsAcceptedIff(v.own[role].items, x => x in v.own.Keys);
        assert HoldsTexts(v.own[role].items, x => x in v.own.Keys) <==>
               HoldsTexts(v.own[role].items, parent => parent in v.own);
      }
    }
  }

  /** Rules are accepted one by one, and holes among them passed over. */
  lemma {:induction false} RulesAcceptedIff(items: seq<Value>, actions: seq<string>, subjects: seq<string>,
                                            roles: set<string>)
    ensures CheckRules(items, actions, subjects, roles).Some? <==>
              forall item :: item in items ==> item == Hole || CheckRule(item, actions, subjects, roles).Some?
  {
    if items != [] {
      RulesAcceptedIff(items[1..], actions, subjects, roles);
      assert items == [items[0]] + items[1..];
    }
  }

  /** Rules that are fine one by one are accepted together exactly when no two carry the same id. */
  lemma IdsAcceptedIff(p: Policy)
    requires NormalPolicy(p.(rules := [])) && ValidRules(p.rules, p.actions, p.subjects, p.roles.Keys)
    requires NormalRules(p.rules, p.actions, p.subjects, p.roles.Keys)
    ensures Validate(EncodePolicy(p)).Some? <==>
              forall i, j :: 0 <= i < j < |p.rules| && p.rules[i].id.Some? ==> p.rules[i].id != p.rules[j].id
  {
    if UniqueIds(p.rules) {
      NormalPolicyIsAccepted(p);
    } else {
      EncodedPolicyHolds(p);
      RulesReadAgainIff(p.rules, p.actions, p.subjects, p.roles.Keys);
      NormalRulesAreKept(p.rules, p.actions, p.subjects, p.roles.Keys);
      NameListOfEncoded(p.actions, x => Declarable(x));
      NameListOfEncoded(p.subjects, x => Declarable(x));
      RolesRoundTrip(p.roles);
    }
  }

  /** `c` inside `n` negations. */
  function Negated(c: Condition, n: nat): Condition {
    if n == 0 then c else Not(Negated(c, n - 1))
  }

  lemma {:induction false} NegationsAreRead(c: Condition, n: nat, depth: nat)
    requires c.Presence? && WalkablePath(c.path)
    ensures CheckCondition(Encode(Negated(c, n)), depth).Some? <==> depth + n <= 32
  {
    if n == 0 {
      if depth <= 32 {
        LeafRoundTrip(c, depth);
      }
    } else {
      NegationsAreRead(c, n - 1, depth + 1);
    }
  }

  /** Conditions are accepted up to 32 levels deep, a leaf being one. */
  lemma NestingAcceptedIff(c: Condition, n: nat)
    requires c.Presence? && WalkablePath(c.path)
    ensures CheckCondition(Encode(Negated(c, n)), 1).Some? <==> n + 1 <= 32
  {
    NegationsAreRead(c, n, 1);
  }

  lemma {:induction false} BlownFuse(c: Condition, n: nat, environment: Environment, depth: nat)
    requires depth + n > 32
    ensures Evaluate(Negated(c, n), environment, depth) == Unknown
    decreases n
  {
    if n > 0 && depth <= 32 {
      BlownFuse(c, n - 1, environment, depth + 1);
    }
  }

  /** Evaluated without validation, anything under so many negations that the limit is passed stays unknown. */
  lemma DeepNestingIsUndecided(c: Condition, n: nat, environment: Environment)
    requires n + 1 > 32
    ensures EvaluateCondition(Negated(c, n), environment) == Unknown
  {
    BlownFuse(c, n, environment, 1);
  }
}
