/**
 Exactly what the validator accepts (packages/access-control/src/internal/validate.ts): nothing but the written form of
 what it returns, names listed twice and holes aside.
 */
module PolicyExact {
  import opened Options
  import opened JsValue
  import opened Conditions
  import opened Policy
  import opened Validation

  /** `v` without the properties its arrays carry besides their elements. */
  function Strip(v: Value): Value
    decreases v, 1
  {
    match v
    case List(items, _) => List(StripEach(items), map[])
    case Record(own) => Record(map key | key in own :: Strip(own[key]))
    case _ => v
  }

  function StripEach(items: seq<Value>): (r: seq<Value>)
    ensures |r| == |items|
    decreases items, 0
  {
    if items == [] then [] else [Strip(items[0])] + StripEach(items[1..])
  }

  lemma StripField(v: Value, key: string)
    requires v.Record?
    ensures Strip(v).Record? && Strip(v).own.Keys == v.own.Keys && Own(Strip(v), key) == Strip(Own(v, key))
  {
  }

  lemma StripOne(v: Value, key: string)
    requires v.Record? && v.own.Keys == {key}
    ensures Strip(v) == Record(map[key := Strip(v.own[key])])
  {
  }

  // ----- Conditions -----

  lemma {:induction false} StripEachAt(items: seq<Value>, i: nat)
    requires i < |items|
    ensures StripEach(items)[i] == Strip(items[i])
  {
    if i > 0 {
      StripEachAt(items[1..], i - 1);
    }
  }

  lemma MembersAreWritten(items: seq<Value>)
    requires Members(items) && NoHolesEach(items)
    ensures StripEach(items) == Spread(items)
  {
    NoHolesIn(items);
    forall i | 0 <= i < |items|
      ensures StripEach(items)[i] == Spread(items)[i]
    {
      StripEachAt(items, i);
      assert Spread(items)[i] in Spread(items);
    }
  }

  lemma LiteralIsWritten(v: Value, op: Operator)
    requires CheckLiteral(v, op).Some? && NoHoles(v)
    ensures Strip(v) == LiteralValue(CheckLiteral(v, op).value)
  {
    if v.List? {
      MembersAreWritten(v.items);
    }
  }

  lemma OperatorNameRoundTrip(name: string)
    requires OperatorNamed(name).Some?
    ensures OperatorName(OperatorNamed(name).value) == name
  {
  }

  lemma PathIsWritten(v: Value)
    requires PathOf(v).Some?
    ensures v == Scalar(Text(PathOf(v).value))
  {
  }

  lemma PresenceIsWritten(v: Value)
    requires v.Record? && CheckLeaf(v).Some? && CheckLeaf(v).value.Presence?
    ensures Strip(v) == Encode(CheckLeaf(v).value)
  {
    StripField(v, "path");
    StripField(v, "op");
    PathIsWritten(Own(v, "path"));
    assert v.own.Keys == {"path", "op"};
  }

  lemma StripThree(v: Value, path: Value, op: Value, key: string, operand: Value)
    requires v.Record? && v.own.Keys == {"path", "op", key} && key != "path" && key != "op"
    requires Strip(v.own["path"]) == path && Strip(v.own["op"]) == op && Strip(v.own[key]) == operand
    ensures Strip(v) == Record(map["path" := path, "op" := op, key := operand])
  {
    assert Strip(v).own.Keys == {"path", "op", key};
  }

  lemma RefIsWritten(v: Value)
    requires v.Record? && CheckLeaf(v).Some? && CheckLeaf(v).value.Compare? && CheckLeaf(v).value.operand.Ref?
    ensures Strip(v) == Encode(CheckLeaf(v).value)
  {
    var c := CheckLeaf(v).value;
    PathIsWritten(Own(v, "path"));
    PathIsWritten(Own(v, "ref"));
    OperatorNameRoundTrip(TextOf(Own(v, "op")).value);
    assert v.own.Keys == {"path", "op", "ref"};
    StripThree(v, Scalar(Text(c.path)), Scalar(Text(OperatorName(c.op))), "ref", Scalar(Text(c.operand.path)));
  }

  lemma ConstantIsWritten(v: Value)
    requires v.Record? && CheckLeaf(v).Some? && CheckLeaf(v).value.Compare? && CheckLeaf(v).value.operand.Constant?
    requires NoHoles(v)
    ensures Strip(v) == Encode(CheckLeaf(v).value)
  {
    var c := CheckLeaf(v).value;
    PathIsWritten(Own(v, "path"));
    OperatorNameRoundTrip(TextOf(Own(v, "op")).value);
    LiteralIsWritten(Own(v, "value"), c.op);
    assert v.own.Keys == {"path", "op", "value"};
    StripThree(v, Scalar(Text(c.path)), Scalar(Text(OperatorName(c.op))), "value", LiteralValue(c.operand.literal));
  }

  lemma {:induction false} ConditionIsWritten(v: Value, depth: nat)
    requires CheckCondition(v, depth).Some? && NoHoles(v)
    ensures Strip(v) == Encode(CheckCondition(v, depth).value)
    decreases v, 1
  {
    if "not" in v.own {
      StripOne(v, "not");
      ConditionIsWritten(v.own["not"], depth + 1);
    } else if "all" in v.own {
      StripOne(v, "all");
      ConditionsAreWritten(v.own["all"].items, depth + 1);
    } else if "any" in v.own {
      StripOne(v, "any");
      ConditionsAreWritten(v.own["any"].items, depth + 1);
    } else if CheckLeaf(v).value.Presence? {
      PresenceIsWritten(v);
    } else if CheckLeaf(v).value.operand.Ref? {
      RefIsWritten(v);
    } else {
      ConstantIsWritten(v);
    }
  }

  lemma {:induction false} ConditionsAreWritten(items: seq<Value>, depth: nat)
    requires CheckEach(items, depth).Some? && NoHolesEach(items)
    ensures StripEach(items) == EncodeEach(CheckEach(items, depth).value)
    decreases items, 0
  {
    if items != [] {
      ConditionIsWritten(items[0], depth);
      ConditionsAreWritten(items[1..], depth);
      var cs := CheckEach(items, depth).value;
      assert cs[1..] == CheckEach(items[1..], depth).value;
    }
  }

  lemma MembersIgnoreStrip(items: seq<Value>)
    ensures Members(StripEach(items)) <==> Members(items)
    ensures Members(items) ==> Spread(StripEach(items)) == Spread(items)
  {
    forall i | 0 <= i < |items|
      ensures StripEach(items)[i] == Strip(items[i])
    {
      StripEachAt(items, i);
    }
  }

  lemma TextIgnoresStrip(v: Value)
    ensures TextOf(Strip(v)) == TextOf(v) && PathOf(Strip(v)) == PathOf(v)
  {
  }

  lemma LiteralIgnoresStrip(v: Value, op: Operator)
    ensures CheckLiteral(Strip(v), op) == CheckLiteral(v, op)
  {
    if v.List? {
      MembersIgnoreStrip(v.items);
    }
  }

  lemma SameFieldsSameLeaf(v: Value, w: Value)
    requires v.Record? && w.Record? && v.own.Keys == w.own.Keys
    requires PathOf(Own(v, "path")) == PathOf(Own(w, "path")) && TextOf(Own(v, "op")) == TextOf(Own(w, "op"))
    requires PathOf(Own(v, "ref")) == PathOf(Own(w, "ref"))
    requires forall op :: CheckLiteral(Own(v, "value"), op) == CheckLiteral(Own(w, "value"), op)
    ensures CheckLeaf(v) == CheckLeaf(w)
  {
    assert "ref" in v.own ==> v.own["ref"] == Own(v, "ref") && w.own["ref"] == Own(w, "ref");
    assert "value" in v.own ==> v.own["value"] == Own(v, "value") && w.own["value"] == Own(w, "value");
  }

  lemma LeafIgnoresStrip(v: Value)
    requires v.Record?
    ensures CheckLeaf(Strip(v)) == CheckLeaf(v)
  {
    StripField(v, "path");
    StripField(v, "op");
    StripField(v, "ref");
    StripField(v, "value");
    TextIgnoresStrip(Own(v, "path"));
    TextIgnoresStrip(Own(v, "op"));
    TextIgnoresStrip(Own(v, "ref"));
    forall op
      ensures CheckLiteral(Own(Strip(v), "value"), op) == CheckLiteral(Own(v, "value"), op)
    {
      LiteralIgnoresStrip(Own(v, "value"), op);
    }
    SameFieldsSameLeaf(Strip(v), v);
  }

  lemma {:induction false} ConditionIgnoresStrip(v: Value, depth: nat)
    ensures CheckCondition(Strip(v), depth) == CheckCondition(v, depth)
    decreases v, 1
  {
    if v.Record? && depth <= MAX_CONDITION_DEPTH {
      assert Strip(v).own.Keys == v.own.Keys;
      if "not" in v.own {
        ConditionIgnoresStrip(v.own["not"], depth + 1);
      } else if "all" in v.own {
        if v.own["all"].List? {
          ConditionsIgnoreStrip(v.own["all"].items, depth + 1);
        }
      } else if "any" in v.own {
        if v.own["any"].List? {
          ConditionsIgnoreStrip(v.own["any"].items, depth + 1);
        }
      } else {
        LeafIgnoresStrip(v);
      }
    }
  }

  lemma {:induction false} ConditionsIgnoreStrip(items: seq<Value>, depth: nat)
    ensures CheckEach(StripEach(items), depth) == CheckEach(items, depth)
    decreases items, 0
  {
    if items != [] {
      ConditionIgnoresStrip(items[0], depth);
      ConditionsIgnoreStrip(items[1..], depth);
      assert StripEach(items)[1..] == StripEach(items[1..]);
    }
  }

  /**
   A value without holes is accepted as a condition exactly when it is how that condition is written and the condition
   is normal; one with holes is never accepted as a normal condition.
   */
  lemma ConditionAcceptedIff(v: Value, c: Condition, depth: nat)
    ensures CheckCondition(v, depth) == Some(c) && NoHoles(v) <==> Normal(c, depth) && Strip(v) == Encode(c)
    ensures CheckCondition(v, depth) == Some(c) && !NoHoles(v) ==> !Normal(c, depth)
  {
    if CheckCondition(v, depth) == Some(c) {
      AcceptedIsNormal(v, depth);
      if NoHoles(v) {
        ConditionIsWritten(v, depth);
      }
    }
    if Normal(c, depth) && Strip(v) == Encode(c) {
      ConditionRoundTrip(c, depth);
      ConditionIgnoresStrip(v, depth);
      AcceptedIsNormal(v, depth);
    }
  }

  // ----- Rules and policies -----

  /** An array that lists nothing twice and has no hole. */
  predicate Unrepeated(v: Value) {
    v.List? ==> Hole !in v.items && forall i, j :: 0 <= i < j < |v.items| ==> v.items[i] != v.items[j]
  }

  lemma {:induction false} TextAt(items: seq<Value>, allowed: string -> bool, i: nat)
    requires Texts(items, allowed).Some? && i < |items| && Hole !in items
    ensures |Texts(items, allowed).value| == |items|
    ensures items[i] == Scalar(Text(Texts(items, allowed).value[i]))
  {
    assert items[0] in items;
    if |items| > 1 {
      TextAt(items[1..], allowed, if i > 0 then i - 1 else 0);
    }
  }

  lemma TextsAreWritten(v: Value, allowed: string -> bool)
    requires v.List? && Unrepeated(v) && Texts(v.items, allowed).Some?
    ensures Strip(v) == EncodeTexts(Dedup(Texts(v.items, allowed).value))
  {
    var texts := Texts(v.items, allowed).value;
    if v.items != [] {
      TextAt(v.items, allowed, 0);
    }
    forall i | 0 <= i < |texts|
      ensures v.items[i] == Scalar(Text(texts[i])) && StripEach(v.items)[i] == v.items[i]
    {
      TextAt(v.items, allowed, i);
      StripEachAt(v.items, i);
    }
    DedupOnce(texts);
    assert StripEach(v.items) == EncodeTexts(texts).items;
  }

  lemma SelectorIsWritten(v: Value, declared: seq<string>)
    requires Unrepeated(v) && CheckSelector(v, declared).Some?
    ensures Strip(v) == EncodeSelector(CheckSelector(v, declared).value)
  {
    if v.List? {
      TextsAreWritten(v, x => x in declared);
    }
  }

  predicate RuleIsUnrepeated(v: Value) {
    && Unrepeated(Own(v, "actions")) && Unrepeated(Own(v, "subjects")) && Unrepeated(Own(v, "roles"))
    && NoHoles(Own(v, "when"))
  }

  lemma RolesFieldIsWritten(v: Value, roles: set<string>, read: Option<seq<string>>)
    requires v.Record? && RolesField(v, roles) == Some(read) && Unrepeated(Own(v, "roles"))
    ensures HoldsOptional(Strip(v), "roles", if read.Some? then Some(EncodeTexts(read.value)) else None)
  {
    StripField(v, "roles");
    if read.Some? {
      TextsAreWritten(v.own["roles"], x => x in roles);
    }
  }

  lemma WhenFieldIsWritten(v: Value, read: Option<Condition>)
    requires v.Record? && WhenField(v) == Some(read) && NoHoles(Own(v, "when"))
    ensures HoldsOptional(Strip(v), "when", if read.Some? then Some(Encode(read.value)) else None)
  {
    StripField(v, "when");
    if read.Some? {
      ConditionIsWritten(v.own["when"], 1);
    }
  }

  lemma TextFieldsAreWritten(v: Value, id: Option<string>, description: Option<string>)
    requires v.Record? && IdField(v) == Some(id) && DescriptionField(v) == Some(description)
    ensures HoldsOptional(Strip(v), "id", EncodeText(id))
    ensures HoldsOptional(Strip(v), "description", EncodeText(description))
  {
  }

  lemma EffectIsWritten(v: Value, effect: Effect)
    requires CheckEffect(v) == Some(effect)
    ensures Strip(v) == EncodeEffect(effect)
  {
  }

  lemma RuleIsHeld(v: Value, r: Rule, actions: seq<string>, subjects: seq<string>, roles: set<string>)
    requires CheckRule(v, actions, subjects, roles) == Some(r) && RuleIsUnrepeated(v)
    ensures HoldsRule(Strip(v), r)
  {
    AcceptedRuleFields(v, r, actions, subjects, roles);
    StripField(v, "effect");
    StripField(v, "actions");
    StripField(v, "subjects");
    EffectIsWritten(Own(v, "effect"), r.effect);
    SelectorIsWritten(Own(v, "actions"), actions);
    SelectorIsWritten(Own(v, "subjects"), subjects);
    RolesFieldIsWritten(v, roles, r.roles);
    WhenFieldIsWritten(v, r.when);
    TextFieldsAreWritten(v, r.id, r.description);
  }

  lemma FieldDetermined(v: Value, w: Value, r: Rule, key: string)
    requires HoldsRule(v, r) && HoldsRule(w, r)
    ensures (key in v.own <==> key in w.own) && Own(v, key) == Own(w, key)
  {
  }

  lemma RuleIsWritten(v: Value, r: Rule, actions: seq<string>, subjects: seq<string>, roles: set<string>)
    requires CheckRule(v, actions, subjects, roles) == Some(r) && RuleIsUnrepeated(v)
    ensures Strip(v) == EncodeRule(r)
  {
    RuleIsHeld(v, r, actions, subjects, roles);
    EncodedRuleHolds(r);
    var written, w := EncodeRule(r), Strip(v);
    forall key
      ensures (key in w.own <==> key in written.own) && Own(w, key) == Own(written, key)
    {
      FieldDetermined(w, written, r, key);
    }
    assert forall key :: key in w.own ==> w.own[key] == Own(w, key) && written.own[key] == Own(written, key);
    assert w.own == written.own;
  }

  predicate RulesAreUnrepeated(items: seq<Value>) {
    forall i :: 0 <= i < |items| ==> !items[i].Hole? && RuleIsUnrepeated(items[i])
  }

  lemma {:induction false} RulesAreWritten(items: seq<Value>, rules: seq<Rule>, actions: seq<string>,
                                           subjects: seq<string>, roles: set<string>)
    requires CheckRules(items, actions, subjects, roles) == Some(rules) && RulesAreUnrepeated(items)
    ensures StripEach(items) == EncodeRules(rules)
  {
    if items != [] {
      RuleIsWritten(items[0], rules[0], actions, subjects, roles);
      assert rules[1..] == CheckRules(items[1..], actions, subjects, roles).value;
      RulesAreWritten(items[1..], rules[1..], actions, subjects, roles);
    }
  }

  lemma RecordIsWritten(own: map<string, Value>, written: map<string, Value>)
    requires own.Keys == written.Keys && forall key :: key in own ==> Strip(own[key]) == written[key]
    ensures Strip(Record(own)) == Record(written)
  {
  }

  lemma ParentsAreWritten(v: Value, declared: set<string>)
    requires RoleParents(v, declared).Some? && Unrepeated(v)
    ensures Strip(v) == EncodeTexts(RoleParents(v, declared).value)
  {
    TextsAreWritten(v, x => x in declared);
  }

  lemma RolesAreWritten(v: Value)
    requires v.Record? && ReadRoles(v).Some? && forall role :: role in v.own ==> Unrepeated(v.own[role])
    ensures Strip(v) == EncodeRoles(ReadRoles(v).value)
  {
    assert RolesDeclared(v.own);
    var inherits := Graph(v.own);
    forall role | role in v.own
      ensures Strip(v.own[role]) == EncodeRoles(inherits).own[role]
    {
      ParentsAreWritten(v.own[role], v.own.Keys);
    }
    RecordIsWritten(v.own, EncodeRoles(inherits).own);
  }

  /** Nothing in `v` is listed twice, no array has a hole, and `roles` is there in its map form. */
  predicate Written(v: Value) {
    && v.Record?
    && Unrepeated(Own(v, "actions")) && Unrepeated(Own(v, "subjects"))
    && Own(v, "roles").Record?
    && (forall role :: role in Own(v, "roles").own ==> Unrepeated(Own(v, "roles").own[role]))
    && (Own(v, "rules").List? ==> RulesAreUnrepeated(Own(v, "rules").items))
  }

  lemma NamesAreWritten(v: Value, allowed: string -> bool)
    requires NameList(v, allowed).Some? && Unrepeated(v)
    ensures Strip(v) == EncodeTexts(NameList(v, allowed).value)
  {
    TextsAreWritten(v, allowed);
  }

  lemma FieldsAreWritten(v: Value, p: Policy)
    requires Validate(v) == Some(p) && Written(v)
    ensures v.Record? && v.own.Keys <= POLICY_KEYS
    ensures Strip(Own(v, "actions")) == EncodeTexts(p.actions) && Strip(Own(v, "subjects")) == EncodeTexts(p.subjects)
    ensures Strip(Own(v, "roles")) == EncodeRoles(p.roles)
    ensures Own(v, "rules").List? && StripEach(Own(v, "rules").items) == EncodeRules(p.rules)
  {
    AcceptedFields(v, p);
    NamesAreWritten(Own(v, "actions"), x => Declarable(x));
    NamesAreWritten(Own(v, "subjects"), x => Declarable(x));
    RolesAreWritten(Own(v, "roles"));
    RulesAreWritten(Own(v, "rules").items, p.rules, p.actions, p.subjects, p.roles.Keys);
  }

  lemma StripFour(v: Value, written: Value)
    requires v.Record? && v.own.Keys <= POLICY_KEYS && written.Record? && written.own.Keys == POLICY_KEYS
    requires forall key :: key in POLICY_KEYS ==>
               Strip(Own(v, key)) == Own(written, key) && !Own(written, key).Undefined?
    ensures Strip(v) == written
  {
    forall key | key in POLICY_KEYS
      ensures key in v.own && Strip(v.own[key]) == written.own[key]
    {
      assert !Strip(Own(v, key)).Undefined?;
    }
    RecordIsWritten(v.own, written.own);
  }

  lemma WrittenFieldsMakePolicy(v: Value, p: Policy)
    requires v.Record? && v.own.Keys <= POLICY_KEYS
    requires Strip(Own(v, "actions")) == EncodeTexts(p.actions) && Strip(Own(v, "subjects")) == EncodeTexts(p.subjects)
    requires Strip(Own(v, "roles")) == EncodeRoles(p.roles)
    requires Own(v, "rules").List? && StripEach(Own(v, "rules").items) == EncodeRules(p.rules)
    ensures Strip(v) == EncodePolicy(p)
  {
    EncodedPolicyHolds(p);
    assert Strip(Own(v, "rules")) == List(EncodeRules(p.rules), map[]);
    StripFour(v, EncodePolicy(p));
  }

  /** Normalisation drops repeated names and holes and fills in `roles`; the rest of what is accepted is returned. */
  lemma AcceptedPolicyIsWritten(v: Value)
    requires Validate(v).Some? && Written(v)
    ensures Strip(v) == EncodePolicy(Validate(v).value)
  {
    FieldsAreWritten(v, Validate(v).value);
    WrittenFieldsMakePolicy(v, Validate(v).value);
  }
}
