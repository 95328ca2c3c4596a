/**
 Validated policies sent as JSON and validated again (packages/access-control/src/internal/validate.ts; its check for
 finite numbers exists so that a policy decides the same on both sides of the wire).
 */
module PolicyWire {
  import opened Options
  import opened JsValue
  import opened Conditions
  import opened Policy
  import opened Validation

  /** What `JSON.stringify` leaves out of an object, and writes as `null` in an array. */
  predicate Dropped(v: Value) {
    v.Undefined? || v.Opaque? || v.Throws? || v.Hole?
  }

  /** `JSON.parse(JSON.stringify(v))`: a number that is not finite becomes `null`. */
  function Json(v: Value): Value
    decreases v, 1
  {
    match v
    case Scalar(p) => if IsFinite(p) then v else Null
    case List(items, _) => List(JsonEach(items), map[])
    case Record(own) => Record(map key | key in own && !Dropped(own[key]) :: Json(own[key]))
    case _ => v
  }

  function JsonEach(items: seq<Value>): (r: seq<Value>)
    ensures |r| == |items|
    decreases items, 0
  {
    if items == [] then []
    else [if Dropped(items[0]) then Null else Json(items[0])] + JsonEach(items[1..])
  }

  /** No operand is missing, and every list of literals holds finite numbers, strings and booleans only. */
  predicate Portable(c: Condition)
    decreases c, 1
  {
    match c
    case AllOf(operands) => PortableEach(operands)
    case AnyOf(operands) => PortableEach(operands)
    case Not(inner) => Portable(inner)
    case Compare(_, _, Constant(Many(items))) => AllFinite(items)
    case Gap => false
    case _ => true
  }

  predicate PortableEach(cs: seq<Condition>)
    decreases cs, 0
  {
    cs == [] || (Portable(cs[0]) && PortableEach(cs[1..]))
  }

  predicate AllFinite(items: seq<Value>) {
    forall i :: 0 <= i < |items| ==> items[i].Scalar? && IsFinite(items[i].prim)
  }

  lemma {:induction false} PortableIsWhole(c: Condition)
    requires Portable(c)
    ensures Whole(c)
    decreases c, 1
  {
    match c
    case AllOf(operands) => PortableEachIsWhole(operands);
    case AnyOf(operands) => PortableEachIsWhole(operands);
    case Not(inner) => PortableIsWhole(inner);
    case _ =>
  }

  lemma {:induction false} PortableEachIsWhole(cs: seq<Condition>)
    requires PortableEach(cs)
    ensures WholeEach(cs)
    decreases cs, 0
  {
    if cs != [] {
      PortableIsWhole(cs[0]);
      PortableEachIsWhole(cs[1..]);
    }
  }

  lemma {:induction false} JsonEachAt(items: seq<Value>, i: nat)
    requires i < |items|
    ensures JsonEach(items)[i] == if Dropped(items[i]) then Null else Json(items[i])
  {
    if i > 0 {
      JsonEachAt(items[1..], i - 1);
    }
  }

  lemma FixedList(items: seq<Value>)
    requires forall i :: 0 <= i < |items| ==> !Dropped(items[i]) && Json(items[i]) == items[i]
    ensures Json(List(items, map[])) == List(items, map[])
  {
    forall i | 0 <= i < |items|
      ensures JsonEach(items)[i] == items[i]
    {
      JsonEachAt(items, i);
    }
  }

  lemma FixedRecord(own: map<string, Value>)
    requires forall key :: key in own ==> !Dropped(own[key]) && Json(own[key]) == own[key]
    ensures Json(Record(own)) == Record(own)
  {
  }

  lemma FixedTexts(s: seq<string>)
    ensures Json(EncodeTexts(s)) == EncodeTexts(s)
  {
    FixedList(EncodeTexts(s).items);
  }

  // ----- Conditions -----

  lemma FixedLeaf(c: Condition, depth: nat)
    requires Valid(c, depth) && (c.Presence? || c.Compare?) && Portable(c)
    ensures Json(Encode(c)) == Encode(c)
  {
    if c.Compare? && c.operand.Constant? && c.operand.literal.Many? {
      FixedList(c.operand.literal.items);
    }
    FixedRecord(Encode(c).own);
  }

  lemma {:induction false} PortableIsFixed(c: Condition, depth: nat)
    requires Valid(c, depth) && Portable(c)
    ensures !Dropped(Encode(c)) && Json(Encode(c)) == Encode(c)
    decreases c, 1
  {
    match c
    case AllOf(operands) =>
      PortableEachIsFixed(operands, depth + 1);
      FixedRecord(Encode(c).own);
    case AnyOf(operands) =>
      PortableEachIsFixed(operands, depth + 1);
      FixedRecord(Encode(c).own);
    case Not(inner) =>
      PortableIsFixed(inner, depth + 1);
      FixedRecord(Encode(c).own);
    case _ =>
      FixedLeaf(c, depth);
  }

  lemma {:induction false} PortableEachIsFixed(cs: seq<Condition>, depth: nat)
    requires ValidEach(cs, depth) && PortableEach(cs)
    ensures JsonEach(EncodeEach(cs)) == EncodeEach(cs)
    decreases cs, 0
  {
    if cs != [] {
      PortableIsFixed(cs[0], depth);
      PortableEachIsFixed(cs[1..], depth);
      assert EncodeEach(cs)[1..] == EncodeEach(cs[1..]);
    }
  }

  lemma JsonField(v: Value, key: string)
    requires v.Record? && key in v.own && !Dropped(v.own[key])
    ensures Json(v).Record? && Own(Json(v), key) == Json(v.own[key])
  {
  }

  /** Whatever JSON turns into `null` is refused in a list of literals. */
  lemma ListIsRefused(items: seq<Value>, op: Operator)
    requires (op.In? || op.Nin?) && !AllFinite(items)
    requires forall i :: 0 <= i < |items| ==> items[i].Scalar? || items[i].Undefined?
    ensures CheckLiteral(Json(List(items, map[])), op).None?
  {
    var i :| 0 <= i < |items| && !(items[i].Scalar? && IsFinite(items[i].prim));
    JsonEachAt(items, i);
    assert JsonEach(items)[i] == Null;
  }

  lemma ListLeafIsRefused(v: Value, op: Operator, items: seq<Value>)
    requires v.Record? && v.own.Keys == {"path", "op", "value"} && (op.In? || op.Nin?) && !AllFinite(items)
    requires forall i :: 0 <= i < |items| ==> items[i].Scalar? || items[i].Undefined?
    requires v.own["op"] == Scalar(Text(OperatorName(op))) && v.own["value"] == List(items, map[])
    ensures Json(v).Record? && Json(v).own.Keys <= v.own.Keys && CheckLeaf(Json(v)).None?
  {
    ListIsRefused(items, op);
    OperatorRoundTrip(op);
    JsonField(v, "op");
    JsonField(v, "value");
  }

  lemma LeafIsRefused(c: Condition, depth: nat)
    requires Valid(c, depth) && c.Compare? && !Portable(c)
    ensures CheckCondition(Json(Encode(c)), depth).None?
  {
    ListLeafIsRefused(Encode(c), c.op, c.operand.literal.items);
  }

  lemma JsonOne(key: string, v: Value)
    requires !Dropped(v)
    ensures Json(Record(map[key := v])) == Record(map[key := Json(v)])
  {
  }

  lemma CombinatorIsRefused(key: string, items: seq<Value>, depth: nat)
    requires (key == "all" || key == "any") && CheckEach(items, depth + 1).None?
    ensures CheckCondition(Record(map[key := List(items, map[])]), depth).None?
  {
  }

  lemma NegationIsRefused(v: Value, depth: nat)
    requires CheckCondition(v, depth + 1).None?
    ensures CheckCondition(Record(map["not" := v]), depth).None?
  {
  }

  lemma {:induction false} UnportableIsRefused(c: Condition, depth: nat)
    requires Valid(c, depth) && !Portable(c)
    ensures CheckCondition(Json(Encode(c)), depth).None?
    decreases c, 1
  {
    match c
    case AllOf(operands) =>
      JsonOne("all", List(EncodeEach(operands), map[]));
      UnportableEachIsRefused(operands, depth + 1);
      CombinatorIsRefused("all", JsonEach(EncodeEach(operands)), depth);
    case AnyOf(operands) =>
      JsonOne("any", List(EncodeEach(operands), map[]));
      UnportableEachIsRefused(operands, depth + 1);
      CombinatorIsRefused("any", JsonEach(EncodeEach(operands)), depth);
    case Not(inner) =>
      JsonOne("not", Encode(inner));
      UnportableIsRefused(inner, depth + 1);
      NegationIsRefused(Json(Encode(inner)), depth);
    case _ => LeafIsRefused(c, depth);
  }

  lemma {:induction false} UnportableEachIsRefused(cs: seq<Condition>, depth: nat)
    requires ValidEach(cs, depth) && !PortableEach(cs)
    ensures CheckEach(JsonEach(EncodeEach(cs)), depth).None?
    decreases cs, 0
  {
    var items := EncodeEach(cs);
    assert items[1..] == EncodeEach(cs[1..]);
    assert JsonEach(items)[1..] == JsonEach(items[1..]);
    if Portable(cs[0]) {
      UnportableEachIsRefused(cs[1..], depth);
    } else if cs[0].Gap? {
      assert JsonEach(items)[0] == Null;
    } else {
      UnportableIsRefused(cs[0], depth);
    }
  }

  // ----- Rules and policies -----

  predicate PortableField(when: Option<Condition>) {
    when.Some? ==> Portable(when.value)
  }

  lemma FixedSelector(selector: Selector)
    ensures Json(EncodeSelector(selector)) == EncodeSelector(selector)
  {
    if selector.Names? {
      FixedTexts(selector.names);
    }
  }

  lemma HeldFieldIsFixed(v: Value, r: Rule, actions: seq<string>, subjects: seq<string>, roles: set<string>,
                         key: string)
    requires HoldsRule(v, r) && ValidRule(r, actions, subjects, roles) && key in v.own
    ensures !Dropped(v.own[key])
    ensures key != "when" ==> Json(v.own[key]) == v.own[key]
  {
    assert key in RULE_KEYS;
    if key == "actions" {
      FixedSelector(r.actions);
    } else if key == "subjects" {
      FixedSelector(r.subjects);
    } else if key == "roles" {
      FixedTexts(r.roles.value);
    }
  }

  /** JSON leaves a rule as it is, its condition aside. */
  lemma JsonRule(v: Value, r: Rule, actions: seq<string>, subjects: seq<string>, roles: set<string>)
    requires HoldsRule(v, r) && ValidRule(r, actions, subjects, roles)
    ensures Json(v).Record? && Json(v).own.Keys == v.own.Keys
    ensures forall key :: key in v.own ==> !Dropped(v.own[key]) && Json(v).own[key] == Json(v.own[key])
    ensures forall key :: key in v.own && key != "when" ==> Json(v.own[key]) == v.own[key]
  {
    forall key | key in v.own
      ensures !Dropped(v.own[key]) && (key != "when" ==> Json(v.own[key]) == v.own[key])
    {
      HeldFieldIsFixed(v, r, actions, subjects, roles, key);
    }
  }

  lemma PortableRuleIsFixed(v: Value, r: Rule, actions: seq<string>, subjects: seq<string>, roles: set<string>)
    requires HoldsRule(v, r) && ValidRule(r, actions, subjects, roles) && PortableField(r.when)
    ensures Json(v) == v && KeptField(r.when)
  {
    JsonRule(v, r, actions, subjects, roles);
    if r.when.Some? {
      PortableIsFixed(r.when.value, 1);
      PortableIsWhole(r.when.value);
      WholeIsKept(r.when.value);
    }
    FixedRecord(v.own);
  }

  lemma UnportableRuleIsRefused(v: Value, r: Rule, actions: seq<string>, subjects: seq<string>, roles: set<string>)
    requires HoldsRule(v, r) && ValidRule(r, actions, subjects, roles) && !PortableField(r.when)
    ensures CheckRule(Json(v), actions, subjects, roles).None?
  {
    JsonRule(v, r, actions, subjects, roles);
    UnportableIsRefused(r.when.value, 1);
    assert WhenField(Json(v)).None?;
  }

  predicate RuleIsPortable(r: Rule) {
    Applies(r) && PortableField(r.when)
  }

  lemma RuleCrosses(r: Rule, actions: seq<string>, subjects: seq<string>, roles: set<string>)
    requires ValidRule(r, actions, subjects, roles)
    ensures CheckRule(Json(EncodeRule(r)), actions, subjects, roles) == if RuleIsPortable(r) then Some(r) else None
  {
    EncodedRuleHolds(r);
    if PortableField(r.when) {
      PortableRuleIsFixed(EncodeRule(r), r, actions, subjects, roles);
      HeldRuleIsRead(EncodeRule(r), r, actions, subjects, roles);
    } else {
      UnportableRuleIsRefused(EncodeRule(r), r, actions, subjects, roles);
    }
  }

  predicate RulesArePortable(rules: seq<Rule>) {
    forall rule :: rule in rules ==> RuleIsPortable(rule)
  }

  lemma {:induction false} RulesCross(rules: seq<Rule>, actions: seq<string>, subjects: seq<string>, roles: set<string>)
    requires ValidRules(rules, actions, subjects, roles)
    ensures CheckRules(JsonEach(EncodeRules(rules)), actions, subjects, roles)
            == if RulesArePortable(rules) then Some(rules) else None
  {
    if rules != [] {
      assert rules[0] in rules;
      RuleCrosses(rules[0], actions, subjects, roles);
      RulesCross(rules[1..], actions, subjects, roles);
      var items := EncodeRules(rules);
      assert items[1..] == EncodeRules(rules[1..]);
      assert JsonEach(items)[1..] == JsonEach(items[1..]);
      assert forall rule :: rule in rules <==> rule == rules[0] || rule in rules[1..];
      assert [rules[0]] + rules[1..] == rules;
    }
  }

  lemma FixedRoles(inherits: map<string, seq<string>>)
    ensures Json(EncodeRoles(inherits)) == EncodeRoles(inherits)
  {
    forall role | role in inherits
      ensures Json(EncodeTexts(inherits[role])) == EncodeTexts(inherits[role])
    {
      FixedTexts(inherits[role]);
    }
    FixedRecord(EncodeRoles(inherits).own);
  }

  /** The fields of a policy after the crossing. */
  lemma JsonPolicy(v: Value, p: Policy)
    requires v.Record? && Own(v, "actions") == EncodeTexts(p.actions) && Own(v, "subjects") == EncodeTexts(p.subjects)
    requires Own(v, "roles") == EncodeRoles(p.roles) && Own(v, "rules") == List(EncodeRules(p.rules), map[])
    ensures var w := Json(v);
            && w.Record? && w.own.Keys <= v.own.Keys
            && Own(w, "actions") == EncodeTexts(p.actions) && Own(w, "subjects") == EncodeTexts(p.subjects)
            && Own(w, "roles") == EncodeRoles(p.roles)
            && Own(w, "rules") == List(JsonEach(EncodeRules(p.rules)), map[])
  {
    FixedTexts(p.actions);
    FixedTexts(p.subjects);
    FixedRoles(p.roles);
  }

  predicate PolicyIsPortable(p: Policy) {
    p.actions != [] && p.subjects != [] && RulesArePortable(p.rules)
  }

  lemma PortablePolicyIsNormal(p: Policy)
    requires ValidPolicy(p) && PolicyIsPortable(p)
    ensures NormalPolicy(p)
  {
    forall rule | rule in p.rules
      ensures NormalRule(rule, p.actions, p.subjects, p.roles.Keys)
    {
      if rule.when.Some? {
        PortableIsWhole(rule.when.value);
      }
    }
  }

  /**
   A validated policy sent as JSON is accepted again, and is then the same policy, exactly when every list of names in
   it names something, no operand is missing and no `in` or `nin` list holds NaN, an infinity or `undefined`; otherwise
   it is refused. The check at lines 284-290 covers single literals; lists pass at lines 265-275. Only a policy without
   holes where it matters can cross.
   */
  lemma PolicyCrossesIff(v: Value)
    requires Validate(v).Some?
    ensures var p := Validate(v).value;
            && Validate(Json(EncodePolicy(p))) == (if PolicyIsPortable(p) then Some(p) else None)
            && (PolicyIsPortable(p) ==> Solid(v))
  {
    var p := Validate(v).value;
    AcceptedPolicyIsNormal(v);
    EncodedPolicyHolds(p);
    JsonPolicy(EncodePolicy(p), p);
    RulesCross(p.rules, p.actions, p.subjects, p.roles.Keys);
    FieldsMakePolicy(Json(EncodePolicy(p)), p, RulesArePortable(p.rules));
    if PolicyIsPortable(p) {
      PortablePolicyIsNormal(p);
    }
  }

  /** Such a policy exists: one condition testing membership in a list that holds NaN. */
  lemma SomePolicyDoesNotCross(path: string)
    requires WalkablePath(path)
    ensures var c := Compare(path, In, Constant(Many([Scalar(NaN)])));
            CheckCondition(Encode(c), 1) == Some(c) && CheckCondition(Json(Encode(c)), 1).None?
  {
    var items := [Scalar(NaN)];
    var c := Compare(path, In, Constant(Many(items)));
    ConditionRoundTrip(c, 1);
    assert !AllFinite(items) by {
      assert !IsFinite(items[0].prim);
    }
    UnportableIsRefused(c, 1);
  }
}
