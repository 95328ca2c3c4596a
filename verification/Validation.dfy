/**
 Policy validation and normalisation (packages/access-control/src/internal/validate.ts).
 `None` stands for "some issue was reported"; the texts of the issues are left out.
 */
module Validation {
  import opened Options
  import opened JsValue
  import opened Truth
  import opened Conditions
  import opened Roles
  import opened Policy

  const PATH_ROOTS := {"principal", "resource", "env"}
  const FORBIDDEN_SEGMENTS := {"__proto__", "constructor", "prototype"}

  function Own(v: Value, key: string): Value {
    if v.Record? && key in v.own then v.own[key] else Undefined
  }

  function TextOf(v: Value): Option<string> {
    if v.Scalar? && v.prim.Text? then Some(v.prim.text) else None
  }

  /** The names of `s`, each once, in the order they first appear. */
  function Dedup(s: seq<string>): (r: seq<string>)
    ensures forall x :: x in r <==> x in s
    ensures forall i, j :: 0 <= i < j < |r| ==> r[i] != r[j]
    ensures s != [] ==> r != []
  {
    if s == [] then []
    else
      var earlier, last := Dedup(s[..|s| - 1]), s[|s| - 1];
      assert forall x :: x in s <==> x in s[..|s| - 1] || x == last;
      if last in earlier then earlier else earlier + [last]
  }

  lemma {:induction false} DedupOnce(s: seq<string>)
    requires forall i, j :: 0 <= i < j < |s| ==> s[i] != s[j]
    ensures Dedup(s) == s
  {
    if s != [] {
      DedupOnce(s[..|s| - 1]);
    }
  }

  /** The strings in `items`, provided each satisfies `allowed`; `forEach` passes over holes. */
  function Texts(items: seq<Value>, allowed: string -> bool): (r: Option<seq<string>>)
    ensures r.Some? ==> forall x :: x in r.value ==> allowed(x)
  {
    if items == [] then Some([])
    else if items[0].Hole? then Texts(items[1..], allowed)
    else
      var text, rest := TextOf(items[0]), Texts(items[1..], allowed);
      if text.Some? && allowed(text.value) && rest.Some? then Some([text.value] + rest.value) else None
  }

  /** A list with something in it besides holes. */
  predicate Listed(v: Value) {
    v.List? ==> exists i :: 0 <= i < |v.items| && !v.items[i].Hole?
  }

  lemma {:induction false} TextsListed(items: seq<Value>, own: map<string, Value>, allowed: string -> bool)
    requires Texts(items, allowed).Some?
    ensures Texts(items, allowed).value != [] <==> Listed(List(items, own))
  {
    if items != [] {
      TextsListed(items[1..], own, allowed);
      assert forall i :: 0 <= i < |items[1..]| ==> items[1..][i] == items[i + 1];
      if items[0].Hole? && Listed(List(items, own)) {
        var i :| 0 <= i < |items| && !items[i].Hole?;
        assert !items[1..][i - 1].Hole?;
      }
    }
  }

  function EncodeTexts(s: seq<string>): Value {
    List(seq(|s|, i requires 0 <= i < |s| => Scalar(Text(s[i]))), map[])
  }

  lemma {:induction false} TextsOfEncoded(s: seq<string>, allowed: string -> bool)
    requires forall x :: x in s ==> allowed(x)
    ensures Texts(EncodeTexts(s).items, allowed) == Some(s)
  {
    if s != [] {
      TextsOfEncoded(s[1..], allowed);
      assert EncodeTexts(s).items[1..] == EncodeTexts(s[1..]).items;
      assert [s[0]] + s[1..] == s;
    }
  }

  /** A non-empty array of allowed names, each once. */
  function NameList(v: Value, allowed: string -> bool): Option<seq<string>> {
    if !v.List? || v.items == [] then None
    else
      var texts := Texts(v.items, allowed);
      if texts.None? then None else Some(Dedup(texts.value))
  }

  ghost predicate IsNames(s: seq<string>, allowed: string -> bool) {
    (forall x :: x in s ==> allowed(x)) && forall i, j :: 0 <= i < j < |s| ==> s[i] != s[j]
  }

  lemma NameListNormal(v: Value, allowed: string -> bool)
    requires NameList(v, allowed).Some?
    ensures IsNames(NameList(v, allowed).value, allowed)
    ensures NameList(v, allowed).value != [] <==> Listed(v)
  {
    TextsListed(v.items, v.own, allowed);
  }

  lemma NameListOfEncoded(s: seq<string>, allowed: string -> bool)
    requires IsNames(s, allowed)
    ensures NameList(EncodeTexts(s), allowed) == if s == [] then None else Some(s)
  {
    TextsOfEncoded(s, allowed);
    DedupOnce(s);
  }

  // ----- Conditions -----

  predicate WalkablePath(path: string) {
    var segments := Split(path, '.');
    && path != ""
    && segments[0] in PATH_ROOTS
    && |segments| > 1
    && forall i :: 1 <= i < |segments| ==> segments[i] != "" && segments[i] !in FORBIDDEN_SEGMENTS
  }

  function PathOf(v: Value): Option<string> {
    var text := TextOf(v);
    if text.Some? && WalkablePath(text.value) then text else None
  }

  function OperatorName(op: Operator): string {
    match op
    case Eq => "eq" case Ne => "ne" case Gt => "gt" case Gte => "gte" case Lt => "lt" case Lte => "lte"
    case Contains => "contains" case In => "in" case Nin => "nin"
  }

  function OperatorNamed(name: string): Option<Operator> {
    if name == "eq" then Some(Eq) else if name == "ne" then Some(Ne)
    else if name == "gt" then Some(Gt) else if name == "gte" then Some(Gte)
    else if name == "lt" then Some(Lt) else if name == "lte" then Some(Lte)
    else if name == "contains" then Some(Contains)
    else if name == "in" then Some(In) else if name == "nin" then Some(Nin)
    else None
  }

  lemma OperatorRoundTrip(op: Operator)
    ensures OperatorNamed(OperatorName(op)) == Some(op)
    ensures OperatorName(op) != "exists" && OperatorName(op) != "notExists"
  {
  }

  /** `every` passes over holes. */
  predicate Members(items: seq<Value>) {
    forall i :: 0 <= i < |items| ==> items[i].Scalar? || items[i].Hole?
  }

  /** `[...items]`: a hole becomes `undefined`. */
  function Spread(items: seq<Value>): seq<Value> {
    seq(|items|, i requires 0 <= i < |items| => if items[i].Hole? then Undefined else items[i])
  }

  function CheckLiteral(v: Value, op: Operator): Option<Literal> {
    if op.In? || op.Nin? then
      if !v.List? || v.items == [] || !Members(v.items) then None else Some(Many(Spread(v.items)))
    else if v.Scalar? && IsFinite(v.prim) then Some(One(v.prim))
    else None
  }

  function CheckLeaf(v: Value): Option<Condition>
    requires v.Record?
  {
    var path, op := PathOf(Own(v, "path")), TextOf(Own(v, "op"));
    if !(v.own.Keys <= {"path", "op", "value", "ref"}) || path.None? || op.None? then None
    else if op.value == "exists" || op.value == "notExists" then
      if "value" in v.own || "ref" in v.own then None
      else Some(Presence(path.value, op.value == "exists"))
    else
      var operator := OperatorNamed(op.value);
      if operator.None? || ("value" in v.own <==> "ref" in v.own) then None
      else if "ref" in v.own then
        var ref := PathOf(v.own["ref"]);
        if ref.Some? then Some(Compare(path.value, operator.value, Ref(ref.value))) else None
      else
        var literal := CheckLiteral(v.own["value"], operator.value);
        if literal.Some? then Some(Compare(path.value, operator.value, Constant(literal.value))) else None
  }

  function CheckCondition(v: Value, depth: nat): Option<Condition>
    decreases v, 1
  {
    if depth > MAX_CONDITION_DEPTH || !v.Record? then None
    else if "not" in v.own then
      if v.own.Keys != {"not"} then None
      else
        var inner := CheckCondition(v.own["not"], depth + 1);
        if inner.Some? then Some(Not(inner.value)) else None
    else if "all" in v.own then
      if v.own.Keys != {"all"} || !v.own["all"].List? || v.own["all"].items == [] then None
      else
        var operands := CheckEach(v.own["all"].items, depth + 1);
        if operands.Some? then Some(AllOf(operands.value)) else None
    else if "any" in v.own then
      if v.own.Keys != {"any"} || !v.own["any"].List? || v.own["any"].items == [] then None
      else
        var operands := CheckEach(v.own["any"].items, depth + 1);
        if operands.Some? then Some(AnyOf(operands.value)) else None
    else CheckLeaf(v)
  }

  /** `map` leaves a hole where one was. */
  function CheckEach(items: seq<Value>, depth: nat): (r: Option<seq<Condition>>)
    ensures r.Some? ==> |r.value| == |items|
    decreases items, 0
  {
    if items == [] then Some([])
    else
      var first := if items[0].Hole? then Some(Gap) else CheckCondition(items[0], depth);
      var rest := CheckEach(items[1..], depth);
      if first.Some? && rest.Some? then Some([first.value] + rest.value) else None
  }

  /** What a validated condition looks like, `depth` levels down. */
  predicate Valid(c: Condition, depth: nat)
    decreases c, 1
  {
    depth <= MAX_CONDITION_DEPTH &&
    match c
    case AllOf(operands) => operands != [] && ValidEach(operands, depth + 1)
    case AnyOf(operands) => operands != [] && ValidEach(operands, depth + 1)
    case Not(inner) => Valid(inner, depth + 1)
    case Presence(path, _) => WalkablePath(path)
    case Compare(path, op, operand) =>
      && WalkablePath(path)
      && (match operand
          case Ref(ref) => WalkablePath(ref)
          case Constant(One(p)) => !op.In? && !op.Nin? && IsFinite(p)
          case Constant(Many(items)) =>
            (op.In? || op.Nin?) && items != []
            && forall i :: 0 <= i < |items| ==> items[i].Scalar? || items[i].Undefined?)
    case Gap => false
    case Malformed => false
  }

  predicate ValidEach(cs: seq<Condition>, depth: nat)
    decreases cs, 0
  {
    cs == [] || ((cs[0].Gap? || Valid(cs[0], depth)) && ValidEach(cs[1..], depth))
  }

  predicate Filled(items: seq<Value>) {
    Undefined !in items
  }

  /** No operand is missing, and no literal either. */
  predicate Whole(c: Condition)
    decreases c, 1
  {
    match c
    case AllOf(operands) => WholeEach(operands)
    case AnyOf(operands) => WholeEach(operands)
    case Not(inner) => Whole(inner)
    case Compare(_, _, Constant(Many(items))) => Filled(items)
    case Gap => false
    case _ => true
  }

  predicate WholeEach(cs: seq<Condition>)
    decreases cs, 0
  {
    cs == [] || (Whole(cs[0]) && WholeEach(cs[1..]))
  }

  predicate Normal(c: Condition, depth: nat) {
    Valid(c, depth) && Whole(c)
  }

  /** No array in `v` has a hole. */
  predicate NoHoles(v: Value)
    decreases v, 1
  {
    match v
    case List(items, _) => NoHolesEach(items)
    case Record(own) => forall key :: key in own ==> NoHoles(own[key])
    case Hole => false
    case _ => true
  }

  predicate NoHolesEach(items: seq<Value>)
    decreases items, 0
  {
    items == [] || (NoHoles(items[0]) && NoHolesEach(items[1..]))
  }

  lemma {:induction false} NoHolesIn(items: seq<Value>)
    requires Members(items)
    ensures NoHolesEach(items) <==> Filled(Spread(items))
  {
    if items != [] {
      NoHolesIn(items[1..]);
      assert Spread(items) == [Spread(items)[0]] + Spread(items[1..]);
    }
  }

  lemma AcceptedLeafIsNormal(v: Value, depth: nat)
    requires v.Record? && CheckLeaf(v).Some? && depth <= MAX_CONDITION_DEPTH
    ensures Valid(CheckLeaf(v).value, depth) && (Whole(CheckLeaf(v).value) <==> NoHoles(v))
  {
    var c := CheckLeaf(v).value;
    if "value" in v.own && v.own["value"].List? && c.Compare? && c.operand.Constant? {
      NoHolesIn(v.own["value"].items);
    }
    assert forall key :: key in v.own && key != "value" ==> v.own[key].Scalar?;
  }

  /** What is accepted is valid, and normal unless an array in it has a hole. */
  lemma {:induction false} AcceptedIsNormal(v: Value, depth: nat)
    requires CheckCondition(v, depth).Some?
    ensures Valid(CheckCondition(v, depth).value, depth)
    ensures Whole(CheckCondition(v, depth).value) <==> NoHoles(v)
    decreases v, 1
  {
    if "not" in v.own {
      AcceptedIsNormal(v.own["not"], depth + 1);
    } else if "all" in v.own {
      AcceptedEachIsNormal(v.own["all"].items, depth + 1);
    } else if "any" in v.own {
      AcceptedEachIsNormal(v.own["any"].items, depth + 1);
    } else {
      AcceptedLeafIsNormal(v, depth);
    }
  }

  lemma {:induction false} AcceptedEachIsNormal(items: seq<Value>, depth: nat)
    requires CheckEach(items, depth).Some?
    ensures ValidEach(CheckEach(items, depth).value, depth)
    ensures WholeEach(CheckEach(items, depth).value) <==> NoHolesEach(items)
    decreases items, 0
  {
    if items != [] {
      if !items[0].Hole? {
        AcceptedIsNormal(items[0], depth);
      }
      AcceptedEachIsNormal(items[1..], depth);
      var cs, rest := CheckEach(items, depth).value, CheckEach(items[1..], depth).value;
      assert cs[1..] == rest;
    }
  }

  lemma {:induction false} ValidFits(c: Condition, depth: nat)
    requires Valid(c, depth)
    ensures Fits(c, MAX_CONDITION_DEPTH + 1 - depth)
    decreases c, 1
  {
    match c
    case AllOf(operands) => ValidEachFits(operands, depth + 1);
    case AnyOf(operands) => ValidEachFits(operands, depth + 1);
    case Not(inner) => ValidFits(inner, depth + 1);
    case _ =>
  }

  lemma {:induction false} ValidEachFits(cs: seq<Condition>, depth: nat)
    requires ValidEach(cs, depth)
    ensures FitsEach(cs, MAX_CONDITION_DEPTH + 1 - depth)
    decreases cs, 0
  {
    if cs != [] {
      if !cs[0].Gap? {
        ValidFits(cs[0], depth);
      }
      ValidEachFits(cs[1..], depth);
    }
  }

  /** Every condition the validator accepts is evaluated as if there were no depth fuse. */
  lemma AcceptedConditionsMeanWhatTheySay(v: Value, environment: Environment)
    requires CheckCondition(v, 1).Some?
    ensures var c := CheckCondition(v, 1).value; EvaluateCondition(c, environment) == Meaning(c, environment)
  {
    AcceptedIsNormal(v, 1);
    ValidFits(CheckCondition(v, 1).value, 1);
    FuseIsInvisible(CheckCondition(v, 1).value, environment, 1);
  }

  predicate OnlyHoles(items: seq<Value>) {
    forall i :: 0 <= i < |items| ==> items[i].Hole?
  }

  lemma {:induction false} GapsHaveNoVerdict(items: seq<Value>, environment: Environment, depth: nat)
    requires CheckEach(items, depth).Some?
    ensures EvaluateEach(CheckEach(items, depth).value, environment, depth) == [] <==> OnlyHoles(items)
  {
    if items != [] {
      GapsHaveNoVerdict(items[1..], environment, depth);
      var cs := CheckEach(items, depth).value;
      assert cs[1..] == CheckEach(items[1..], depth).value;
      assert OnlyHoles(items) ==> OnlyHoles(items[1..]);
      assert items[0].Hole? && OnlyHoles(items[1..]) ==> OnlyHoles(items) by {
        assert forall i :: 0 < i < |items| ==> items[i] == items[1..][i - 1];
      }
      if !items[0].Hole? {
        AcceptedIsNormal(items[0], depth);
      }
    }
  }

  /**
   An accepted `all` or `any` decides without looking at any operand exactly when its array holds nothing but holes.
   An `all` is then true, whatever the attributes, and an `any` is false.
   */
  lemma VacuousIffOnlyHoles(v: Value, key: string, environment: Environment, depth: nat)
    requires CheckCondition(v, depth).Some? && key in v.own && (key == "all" || key == "any")
    ensures var c := CheckCondition(v, depth).value;
            && (c.AllOf? || c.AnyOf?)
            && (EvaluateEach(c.operands, environment, depth + 1) == [] <==> OnlyHoles(v.own[key].items))
            && (OnlyHoles(v.own[key].items) ==>
                  Evaluate(c, environment, depth) == if key == "all" then True else False)
  {
    GapsHaveNoVerdict(v.own[key].items, environment, depth + 1);
  }

  // ----- The normal form is a fixed point -----

  function Encode(c: Condition): Value
    decreases c, 1
  {
    match c
    case AllOf(operands) => Record(map["all" := List(EncodeEach(operands), map[])])
    case AnyOf(operands) => Record(map["any" := List(EncodeEach(operands), map[])])
    case Not(inner) => Record(map["not" := Encode(inner)])
    case Presence(path, wanted) =>
      Record(map["path" := Scalar(Text(path)), "op" := Scalar(Text(if wanted then "exists" else "notExists"))])
    case Compare(path, op, Ref(ref)) =>
      Record(map["path" := Scalar(Text(path)), "op" := Scalar(Text(OperatorName(op))), "ref" := Scalar(Text(ref))])
    case Compare(path, op, Constant(literal)) =>
      Record(map["path" := Scalar(Text(path)), "op" := Scalar(Text(OperatorName(op))),
                 "value" := LiteralValue(literal)])
    case Gap => Hole
    case Malformed => Undefined
  }

  function EncodeEach(cs: seq<Condition>): (r: seq<Value>)
    ensures |r| == |cs|
    decreases cs, 0
  {
    if cs == [] then [] else [Encode(cs[0])] + EncodeEach(cs[1..])
  }

  /** What is read back as it was written: a hole in a list of literals has become `undefined`, which is refused. */
  predicate Kept(c: Condition)
    decreases c, 1
  {
    match c
    case AllOf(operands) => KeptEach(operands)
    case AnyOf(operands) => KeptEach(operands)
    case Not(inner) => Kept(inner)
    case Compare(_, _, Constant(Many(items))) => Filled(items)
    case _ => true
  }

  predicate KeptEach(cs: seq<Condition>)
    decreases cs, 0
  {
    cs == [] || (Kept(cs[0]) && KeptEach(cs[1..]))
  }

  lemma {:induction false} WholeIsKept(c: Condition)
    requires Whole(c)
    ensures Kept(c)
    decreases c, 1
  {
    match c
    case AllOf(operands) => WholeEachIsKept(operands);
    case AnyOf(operands) => WholeEachIsKept(operands);
    case Not(inner) => WholeIsKept(inner);
    case _ =>
  }

  lemma {:induction false} WholeEachIsKept(cs: seq<Condition>)
    requires WholeEach(cs)
    ensures KeptEach(cs)
    decreases cs, 0
  {
    if cs != [] {
      WholeIsKept(cs[0]);
      WholeEachIsKept(cs[1..]);
    }
  }

  lemma MembersAreRead(items: seq<Value>, op: Operator)
    requires (op.In? || op.Nin?) && items != []
    requires forall i :: 0 <= i < |items| ==> items[i].Scalar? || items[i].Undefined?
    ensures CheckLiteral(List(items, map[]), op) == if Filled(items) then Some(Many(items)) else None
  {
    if Filled(items) {
      assert Spread(items) == items;
    } else {
      var i :| 0 <= i < |items| && items[i] == Undefined;
      assert !Members(items);
    }
  }

  lemma ComparisonRoundTrip(path: string, op: Operator, operand: Operand, depth: nat)
    requires Valid(Compare(path, op, operand), depth)
    ensures var c := Compare(path, op, operand); CheckLeaf(Encode(c)) == if Kept(c) then Some(c) else None
  {
    OperatorRoundTrip(op);
    if operand.Constant? && operand.literal.Many? {
      MembersAreRead(operand.literal.items, op);
    }
  }

  lemma LeafRoundTrip(c: Condition, depth: nat)
    requires Valid(c, depth) && (c.Presence? || c.Compare?)
    ensures CheckCondition(Encode(c), depth) == if Kept(c) then Some(c) else None
  {
    assert Encode(c).own.Keys <= {"path", "op", "value", "ref"};
    assert CheckCondition(Encode(c), depth) == CheckLeaf(Encode(c));
    if c.Compare? {
      ComparisonRoundTrip(c.path, c.op, c.operand, depth);
    }
  }

  lemma {:induction false} ReadAgainIff(c: Condition, depth: nat)
    requires Valid(c, depth)
    ensures CheckCondition(Encode(c), depth) == if Kept(c) then Some(c) else None
    decreases c, 1
  {
    match c
    case AllOf(operands) => ReadEachAgainIff(operands, depth + 1);
    case AnyOf(operands) => ReadEachAgainIff(operands, depth + 1);
    case Not(inner) => ReadAgainIff(inner, depth + 1);
    case _ => LeafRoundTrip(c, depth);
  }

  lemma {:induction false} ReadEachAgainIff(cs: seq<Condition>, depth: nat)
    requires ValidEach(cs, depth)
    ensures CheckEach(EncodeEach(cs), depth) == if KeptEach(cs) then Some(cs) else None
    decreases cs, 0
  {
    if cs != [] {
      if !cs[0].Gap? {
        ReadAgainIff(cs[0], depth);
      }
      ReadEachAgainIff(cs[1..], depth);
      assert ([Encode(cs[0])] + EncodeEach(cs[1..]))[1..] == EncodeEach(cs[1..]);
      assert [cs[0]] + cs[1..] == cs;
    }
  }

  lemma ConditionRoundTrip(c: Condition, depth: nat)
    requires Normal(c, depth)
    ensures CheckCondition(Encode(c), depth) == Some(c)
  {
    WholeIsKept(c);
    ReadAgainIff(c, depth);
  }

  // ----- Rules -----

  function CheckSelector(v: Value, declared: seq<string>): Option<Selector> {
    if v == Scalar(Text("*")) then Some(Everything)
    else
      var names := NameList(v, x => x in declared);
      if names.Some? then Some(Names(names.value)) else None
  }

  function EncodeSelector(selector: Selector): Value {
    if selector.Everything? then Scalar(Text("*")) else EncodeTexts(selector.names)
  }

  /** A selector that names something. */
  predicate Selects(selector: Selector) {
    selector.Names? ==> selector.names != []
  }

  ghost predicate ValidSelector(selector: Selector, declared: seq<string>) {
    selector.Names? ==> IsNames(selector.names, x => x in declared)
  }

  lemma SelectorNormal(v: Value, declared: seq<string>)
    requires CheckSelector(v, declared).Some?
    ensures ValidSelector(CheckSelector(v, declared).value, declared)
    ensures Selects(CheckSelector(v, declared).value) <==> Listed(v)
  {
    if v != Scalar(Text("*")) {
      NameListNormal(v, x => x in declared);
    }
  }

  lemma SelectorRoundTrip(selector: Selector, declared: seq<string>)
    requires ValidSelector(selector, declared)
    ensures CheckSelector(EncodeSelector(selector), declared) == if Selects(selector) then Some(selector) else None
  {
    if selector.Names? {
      NameListOfEncoded(selector.names, x => x in declared);
    }
  }

  const RULE_KEYS := {"id", "description", "effect", "actions", "subjects", "roles", "when"}

  function CheckEffect(v: Value): Option<Effect> {
    if v == Scalar(Text("allow")) then Some(Allow)
    else if v == Scalar(Text("deny")) then Some(Deny)
    else None
  }

  function EncodeEffect(effect: Effect): Value {
    Scalar(Text(if effect.Allow? then "allow" else "deny"))
  }

  function NonEmptyText(v: Value): Option<string> {
    if TextOf(v) == Some("") then None else TextOf(v)
  }

  // Optional fields: absent, or present and acceptable; the outer `None` is an issue.

  function RolesField(v: Value, roles: set<string>): Option<Option<seq<string>>>
    requires v.Record?
  {
    if "roles" !in v.own then Some(None)
    else
      var names := NameList(v.own["roles"], x => x in roles);
      if names.Some? then Some(names) else None
  }

  function WhenField(v: Value): Option<Option<Condition>>
    requires v.Record?
  {
    if "when" !in v.own then Some(None)
    else
      var when := CheckCondition(v.own["when"], 1);
      if when.Some? then Some(when) else None
  }

  function IdField(v: Value): Option<Option<string>>
    requires v.Record?
  {
    if "id" !in v.own then Some(None)
    else
      var id := NonEmptyText(v.own["id"]);
      if id.Some? then Some(id) else None
  }

  function DescriptionField(v: Value): Option<Option<string>>
    requires v.Record?
  {
    if "description" !in v.own then Some(None)
    else
      var description := TextOf(v.own["description"]);
      if description.Some? then Some(description) else None
  }

  function CheckRule(v: Value, actions: seq<string>, subjects: seq<string>, roles: set<string>): Option<Rule> {
    if !v.Record? || !(v.own.Keys <= RULE_KEYS) then None
    else
      var effect := CheckEffect(Own(v, "effect"));
      var ruleActions := CheckSelector(Own(v, "actions"), actions);
      var ruleSubjects := CheckSelector(Own(v, "subjects"), subjects);
      var ruleRoles := RolesField(v, roles);
      var when := WhenField(v);
      var id := IdField(v);
      var description := DescriptionField(v);
      if effect.None? || ruleActions.None? || ruleSubjects.None? || ruleRoles.None? || when.None? || id.None?
         || description.None? then None
      else Some(Rule(id.value, description.value, effect.value, ruleActions.value, ruleSubjects.value, ruleRoles.value,
                     when.value))
  }

  ghost predicate ValidRule(r: Rule, actions: seq<string>, subjects: seq<string>, roles: set<string>) {
    && ValidSelector(r.actions, actions) && ValidSelector(r.subjects, subjects)
    && (r.roles.Some? ==> IsNames(r.roles.value, x => x in roles))
    && (r.when.Some? ==> Valid(r.when.value, 1))
    && (r.id.Some? ==> r.id.value != "")
  }

  /** A rule whose selectors and roles all name something. */
  predicate Applies(r: Rule) {
    Selects(r.actions) && Selects(r.subjects) && r.roles != Some([])
  }

  ghost predicate NormalRule(r: Rule, actions: seq<string>, subjects: seq<string>, roles: set<string>) {
    ValidRule(r, actions, subjects, roles) && Applies(r) && (r.when.Some? ==> Whole(r.when.value))
  }

  /** Something is named in every list of names, and there is no hole in the condition. */
  predicate RuleIsSolid(v: Value) {
    Listed(Own(v, "actions")) && Listed(Own(v, "subjects")) && Listed(Own(v, "roles")) && NoHoles(Own(v, "when"))
  }

  lemma RolesFieldNormal(v: Value, roles: set<string>)
    requires v.Record? && RolesField(v, roles).Some?
    ensures var read := RolesField(v, roles).value;
            && (read.Some? ==> IsNames(read.value, x => x in roles))
            && (read != Some([]) <==> Listed(Own(v, "roles")))
  {
    if "roles" in v.own {
      NameListNormal(v.own["roles"], x => x in roles);
    }
  }

  lemma AcceptedRuleIsNormal(v: Value, actions: seq<string>, subjects: seq<string>, roles: set<string>)
    requires CheckRule(v, actions, subjects, roles).Some?
    ensures ValidRule(CheckRule(v, actions, subjects, roles).value, actions, subjects, roles)
    ensures NormalRule(CheckRule(v, actions, subjects, roles).value, actions, subjects, roles) <==> RuleIsSolid(v)
  {
    SelectorNormal(Own(v, "actions"), actions);
    SelectorNormal(Own(v, "subjects"), subjects);
    RolesFieldNormal(v, roles);
    if "when" in v.own {
      AcceptedIsNormal(v.own["when"], 1);
    }
  }

  /** `m` with `key` added when there is a value for it. */
  function With(m: map<string, Value>, key: string, v: Option<Value>): map<string, Value> {
    if v.Some? then m[key := v.value] else m
  }

  function EncodeText(text: Option<string>): Option<Value> {
    if text.Some? then Some(Scalar(Text(text.value))) else None
  }

  function EncodeRule(r: Rule): Value {
    var fields := map["effect" := EncodeEffect(r.effect),
                      "actions" := EncodeSelector(r.actions),
                      "subjects" := EncodeSelector(r.subjects)];
    var f1 := With(fields, "roles", if r.roles.Some? then Some(EncodeTexts(r.roles.value)) else None);
    var f2 := With(f1, "when", if r.when.Some? then Some(Encode(r.when.value)) else None);
    Record(With(With(f2, "id", EncodeText(r.id)), "description", EncodeText(r.description)))
  }

  /** `v` holds the fields of `r`, and no others. */
  ghost predicate HoldsRule(v: Value, r: Rule) {
    && v.Record? && v.own.Keys <= RULE_KEYS
    && Own(v, "effect") == EncodeEffect(r.effect)
    && Own(v, "actions") == EncodeSelector(r.actions)
    && Own(v, "subjects") == EncodeSelector(r.subjects)
    && HoldsOptional(v, "roles", if r.roles.Some? then Some(EncodeTexts(r.roles.value)) else None)
    && HoldsOptional(v, "when", if r.when.Some? then Some(Encode(r.when.value)) else None)
    && HoldsOptional(v, "id", EncodeText(r.id))
    && HoldsOptional(v, "description", EncodeText(r.description))
  }

  ghost predicate HoldsOptional(v: Value, key: string, field: Option<Value>)
    requires v.Record?
  {
    (key in v.own <==> field.Some?) && (field.Some? ==> v.own[key] == field.value)
  }

  lemma EncodedRuleHolds(r: Rule)
    ensures HoldsRule(EncodeRule(r), r)
  {
  }

  lemma HeldRolesAreRead(v: Value, names: Option<seq<string>>, roles: set<string>)
    requires v.Record? && HoldsOptional(v, "roles", if names.Some? then Some(EncodeTexts(names.value)) else None)
    requires names.Some? ==> IsNames(names.value, x => x in roles)
    ensures RolesField(v, roles) == if names == Some([]) then None else Some(names)
  {
    if names.Some? {
      NameListOfEncoded(names.value, x => x in roles);
    }
  }

  predicate KeptField(when: Option<Condition>) {
    when.Some? ==> Kept(when.value)
  }

  lemma HeldConditionIsRead(v: Value, when: Option<Condition>)
    requires v.Record? && HoldsOptional(v, "when", if when.Some? then Some(Encode(when.value)) else None)
    requires when.Some? ==> Valid(when.value, 1)
    ensures WhenField(v) == if KeptField(when) then Some(when) else None
  {
    if when.Some? {
      ReadAgainIff(when.value, 1);
    }
  }

  lemma HeldTextsAreRead(v: Value, id: Option<string>, description: Option<string>)
    requires v.Record? && HoldsOptional(v, "id", EncodeText(id))
    requires HoldsOptional(v, "description", EncodeText(description))
    requires id != Some("")
    ensures IdField(v) == Some(id) && DescriptionField(v) == Some(description)
  {
  }

  /** A rule is read back from any value holding its fields exactly when each field is. */
  lemma FieldsMakeRule(v: Value, r: Rule, actions: seq<string>, subjects: seq<string>, roles: set<string>, when: bool)
    requires v.Record? && v.own.Keys <= RULE_KEYS
    requires CheckEffect(Own(v, "effect")) == Some(r.effect)
    requires CheckSelector(Own(v, "actions"), actions) == if Selects(r.actions) then Some(r.actions) else None
    requires CheckSelector(Own(v, "subjects"), subjects) == if Selects(r.subjects) then Some(r.subjects) else None
    requires RolesField(v, roles) == if r.roles == Some([]) then None else Some(r.roles)
    requires WhenField(v) == if when then Some(r.when) else None
    requires IdField(v) == Some(r.id) && DescriptionField(v) == Some(r.description)
    ensures CheckRule(v, actions, subjects, roles) == if Applies(r) && when then Some(r) else None
  {
  }

  lemma HeldRuleIsRead(v: Value, r: Rule, actions: seq<string>, subjects: seq<string>, roles: set<string>)
    requires HoldsRule(v, r) && ValidRule(r, actions, subjects, roles)
    ensures CheckRule(v, actions, subjects, roles) == if Applies(r) && KeptField(r.when) then Some(r) else None
  {
    SelectorRoundTrip(r.actions, actions);
    SelectorRoundTrip(r.subjects, subjects);
    HeldRolesAreRead(v, r.roles, roles);
    HeldConditionIsRead(v, r.when);
    HeldTextsAreRead(v, r.id, r.description);
    FieldsMakeRule(v, r, actions, subjects, roles, KeptField(r.when));
  }

  predicate RuleIsKept(r: Rule) {
    Applies(r) && KeptField(r.when)
  }

  lemma RuleReadAgainIff(r: Rule, actions: seq<string>, subjects: seq<string>, roles: set<string>)
    requires ValidRule(r, actions, subjects, roles)
    ensures CheckRule(EncodeRule(r), actions, subjects, roles) == if RuleIsKept(r) then Some(r) else None
  {
    EncodedRuleHolds(r);
    HeldRuleIsRead(EncodeRule(r), r, actions, subjects, roles);
  }

  lemma RuleRoundTrip(r: Rule, actions: seq<string>, subjects: seq<string>, roles: set<string>)
    requires NormalRule(r, actions, subjects, roles)
    ensures CheckRule(EncodeRule(r), actions, subjects, roles) == Some(r)
  {
    if r.when.Some? {
      WholeIsKept(r.when.value);
    }
    RuleReadAgainIff(r, actions, subjects, roles);
  }

  /** What each field of an accepted rule was read as. */
  lemma AcceptedRuleFields(v: Value, r: Rule, actions: seq<string>, subjects: seq<string>, roles: set<string>)
    requires CheckRule(v, actions, subjects, roles) == Some(r)
    ensures v.Record? && v.own.Keys <= RULE_KEYS && CheckEffect(Own(v, "effect")) == Some(r.effect)
    ensures CheckSelector(Own(v, "actions"), actions) == Some(r.actions)
    ensures CheckSelector(Own(v, "subjects"), subjects) == Some(r.subjects)
    ensures RolesField(v, roles) == Some(r.roles) && WhenField(v) == Some(r.when)
    ensures IdField(v) == Some(r.id) && DescriptionField(v) == Some(r.description)
  {
  }

  function CheckRules(items: seq<Value>, actions: seq<string>, subjects: seq<string>, roles: set<string>)
    : Option<seq<Rule>>
  {
    if items == [] then Some([])
    else if items[0].Hole? then CheckRules(items[1..], actions, subjects, roles)
    else
      var first := CheckRule(items[0], actions, subjects, roles);
      var rest := CheckRules(items[1..], actions, subjects, roles);
      if first.Some? && rest.Some? then Some([first.value] + rest.value) else None
  }

  function EncodeRules(rules: seq<Rule>): (r: seq<Value>) {
    if rules == [] then [] else [EncodeRule(rules[0])] + EncodeRules(rules[1..])
  }

  ghost predicate ValidRules(rules: seq<Rule>, actions: seq<string>, subjects: seq<string>, roles: set<string>) {
    forall rule :: rule in rules ==> ValidRule(rule, actions, subjects, roles)
  }

  ghost predicate NormalRules(rules: seq<Rule>, actions: seq<string>, subjects: seq<string>, roles: set<string>) {
    forall rule :: rule in rules ==> NormalRule(rule, actions, subjects, roles)
  }

  predicate RulesAreSolid(items: seq<Value>) {
    forall item :: item in items && !item.Hole? ==> RuleIsSolid(item)
  }

  predicate RulesAreKept(rules: seq<Rule>) {
    forall rule :: rule in rules ==> RuleIsKept(rule)
  }

  lemma {:induction false} AcceptedRulesAreNormal(items: seq<Value>, actions: seq<string>, subjects: seq<string>,
                                                  roles: set<string>)
    requires CheckRules(items, actions, subjects, roles).Some?
    ensures ValidRules(CheckRules(items, actions, subjects, roles).value, actions, subjects, roles)
    ensures NormalRules(CheckRules(items, actions, subjects, roles).value, actions, subjects, roles)
            <==> RulesAreSolid(items)
  {
    if items != [] {
      AcceptedRulesAreNormal(items[1..], actions, subjects, roles);
      assert forall item :: item in items <==> item == items[0] || item in items[1..];
      if !items[0].Hole? {
        AcceptedRuleIsNormal(items[0], actions, subjects, roles);
        var rules := CheckRules(items, actions, subjects, roles).value;
        assert rules[1..] == CheckRules(items[1..], actions, subjects, roles).value;
        assert forall rule :: rule in rules <==> rule == rules[0] || rule in rules[1..];
      }
    }
  }

  lemma {:induction false} RulesReadAgainIff(rules: seq<Rule>, actions: seq<string>, subjects: seq<string>,
                                             roles: set<string>)
    requires ValidRules(rules, actions, subjects, roles)
    ensures CheckRules(EncodeRules(rules), actions, subjects, roles)
            == if RulesAreKept(rules) then Some(rules) else None
  {
    if rules != [] {
      assert rules[0] in rules;
      RuleReadAgainIff(rules[0], actions, subjects, roles);
      RulesReadAgainIff(rules[1..], actions, subjects, roles);
      assert [rules[0]] + rules[1..] == rules;
      assert forall rule :: rule in rules <==> rule == rules[0] || rule in rules[1..];
    }
  }

  // ----- Roles -----

  predicate RoleName(name: string) {
    name != "" && name !in FORBIDDEN_SEGMENTS
  }

  /** The roles one role inherits, each once. */
  function RoleParents(v: Value, declared: set<string>): Option<seq<string>> {
    if !v.List? then None
    else
      var texts := Texts(v.items, x => x in declared);
      if texts.Some? then Some(Dedup(texts.value)) else None
  }

  function ReadRoles(v: Value): Option<Inherits> {
    if v.Undefined? then Some(map[])
    else if v.List? then RoleList(v.items)
    else if !v.Record? then None
    else if RolesDeclared(v.own) then Some(Graph(v.own))
    else None
  }

  function RoleList(items: seq<Value>): Option<Inherits> {
    var names := Texts(items, x => RoleName(x));
    if names.Some? then Some(Childless(names.value)) else None
  }

  function Childless(names: seq<string>): Inherits {
    map name | name in names :: []
  }

  predicate RolesDeclared(own: map<string, Value>) {
    forall role :: role in own ==> RoleName(role) && RoleParents(own[role], own.Keys).Some?
  }

  function Graph(own: map<string, Value>): Inherits
    requires RolesDeclared(own)
  {
    map role | role in own :: RoleParents(own[role], own.Keys).value
  }

  function EncodeRoles(inherits: Inherits): Value {
    Record(map role | role in inherits :: EncodeTexts(inherits[role]))
  }

  ghost predicate NormalParents(parents: seq<string>, declared: set<string>) {
    (forall p :: p in parents ==> p in declared) && forall i, j :: 0 <= i < j < |parents| ==> parents[i] != parents[j]
  }

  ghost predicate NormalRoles(inherits: Inherits) {
    forall role :: role in inherits ==> RoleName(role) && NormalParents(inherits[role], inherits.Keys)
  }

  lemma AcceptedRolesAreNormal(v: Value)
    requires ReadRoles(v).Some?
    ensures NormalRoles(ReadRoles(v).value)
  {
  }

  lemma ParentsRoundTrip(parents: seq<string>, declared: set<string>)
    requires NormalParents(parents, declared)
    ensures RoleParents(EncodeTexts(parents), declared) == Some(parents)
  {
    TextsOfEncoded(parents, x => x in declared);
    DedupOnce(parents);
  }

  lemma HeldGraphIsRead(own: map<string, Value>, inherits: Inherits)
    requires own.Keys == inherits.Keys
    requires forall role :: role in inherits ==> RoleName(role)
    requires forall role :: role in inherits ==> RoleParents(own[role], own.Keys) == Some(inherits[role])
    ensures RolesDeclared(own) && Graph(own) == inherits
  {
  }

  lemma RolesRoundTrip(inherits: Inherits)
    requires NormalRoles(inherits)
    ensures ReadRoles(EncodeRoles(inherits)) == Some(inherits)
  {
    var own := EncodeRoles(inherits).own;
    forall role | role in inherits
      ensures RoleParents(own[role], own.Keys) == Some(inherits[role])
    {
      assert own.Keys == inherits.Keys;
      ParentsRoundTrip(inherits[role], inherits.Keys);
    }
    HeldGraphIsRead(own, inherits);
  }

  // ----- Policies -----

  const POLICY_KEYS := {"actions", "subjects", "roles", "rules"}

  predicate Declarable(name: string) {
    name != "" && name != "*"
  }

  /** No two rules carry the same id. */
  predicate UniqueIds(rules: seq<Rule>) {
    forall i, j :: 0 <= i < j < |rules| ==> rules[i].id.Some? ==> rules[i].id != rules[j].id
  }

  function Validate(v: Value): Option<Policy> {
    if !v.Record? || !(v.own.Keys <= POLICY_KEYS) then None
    else
      var actions := NameList(Own(v, "actions"), x => Declarable(x));
      var subjects := NameList(Own(v, "subjects"), x => Declarable(x));
      var roles := ReadRoles(Own(v, "roles"));
      if actions.None? || subjects.None? || roles.None? || !Own(v, "rules").List? then None
      else
        var rules := CheckRules(Own(v, "rules").items, actions.value, subjects.value, roles.value.Keys);
        if rules.None? || !UniqueIds(rules.value) then None
        else Some(Policy(actions.value, subjects.value, roles.value, rules.value))
  }

  function EncodePolicy(p: Policy): Value {
    Record(map["actions" := EncodeTexts(p.actions),
               "subjects" := EncodeTexts(p.subjects),
               "roles" := EncodeRoles(p.roles),
               "rules" := List(EncodeRules(p.rules), map[])])
  }

  /** What every validated policy satisfies. */
  ghost predicate ValidPolicy(p: Policy) {
    && IsNames(p.actions, x => Declarable(x))
    && IsNames(p.subjects, x => Declarable(x))
    && NormalRoles(p.roles)
    && ValidRules(p.rules, p.actions, p.subjects, p.roles.Keys)
    && UniqueIds(p.rules)
  }

  /** What it is meant to satisfy: every list names something and every operand is there. */
  ghost predicate NormalPolicy(p: Policy) {
    && ValidPolicy(p) && p.actions != [] && p.subjects != []
    && NormalRules(p.rules, p.actions, p.subjects, p.roles.Keys)
  }

  /** No list of names consists of holes, and no condition has a hole. */
  predicate Solid(v: Value) {
    && Listed(Own(v, "actions")) && Listed(Own(v, "subjects"))
    && (Own(v, "rules").List? ==> RulesAreSolid(Own(v, "rules").items))
  }

  predicate PolicyIsKept(p: Policy) {
    p.actions != [] && p.subjects != [] && RulesAreKept(p.rules)
  }

  lemma AcceptedPolicyIsNormal(v: Value)
    requires Validate(v).Some?
    ensures ValidPolicy(Validate(v).value) && (NormalPolicy(Validate(v).value) <==> Solid(v))
  {
    var p := Validate(v).value;
    NameListNormal(Own(v, "actions"), x => Declarable(x));
    NameListNormal(Own(v, "subjects"), x => Declarable(x));
    AcceptedRolesAreNormal(Own(v, "roles"));
    AcceptedRulesAreNormal(Own(v, "rules").items, p.actions, p.subjects, p.roles.Keys);
  }

  /** What each field of an accepted policy was read as. */
  lemma AcceptedFields(v: Value, p: Policy)
    requires Validate(v) == Some(p)
    ensures v.Record? && v.own.Keys <= POLICY_KEYS
    ensures NameList(Own(v, "actions"), x => Declarable(x)) == Some(p.actions)
    ensures NameList(Own(v, "subjects"), x => Declarable(x)) == Some(p.subjects)
    ensures ReadRoles(Own(v, "roles")) == Some(p.roles) && Own(v, "rules").List?
    ensures CheckRules(Own(v, "rules").items, p.actions, p.subjects, p.roles.Keys) == Some(p.rules)
  {
  }

  /** A policy is read from its fields, exactly when each of them is. */
  lemma FieldsMakePolicy(v: Value, p: Policy, read: bool)
    requires v.Record? && v.own.Keys <= POLICY_KEYS && ValidPolicy(p)
    requires Own(v, "actions") == EncodeTexts(p.actions) && Own(v, "subjects") == EncodeTexts(p.subjects)
    requires Own(v, "roles") == EncodeRoles(p.roles) && Own(v, "rules").List?
    requires CheckRules(Own(v, "rules").items, p.actions, p.subjects, p.roles.Keys)
          == if read then Some(p.rules) else None
    ensures Validate(v) == if p.actions != [] && p.subjects != [] && read then Some(p) else None
  {
    NameListOfEncoded(p.actions, x => Declarable(x));
    NameListOfEncoded(p.subjects, x => Declarable(x));
    RolesRoundTrip(p.roles);
  }

  lemma EncodedPolicyHolds(p: Policy)
    ensures var v := EncodePolicy(p);
            && v.Record? && v.own.Keys == POLICY_KEYS
            && Own(v, "actions") == EncodeTexts(p.actions) && Own(v, "subjects") == EncodeTexts(p.subjects)
            && Own(v, "roles") == EncodeRoles(p.roles) && Own(v, "rules") == List(EncodeRules(p.rules), map[])
  {
  }

  lemma ReadPolicyAgainIff(p: Policy)
    requires ValidPolicy(p)
    ensures Validate(EncodePolicy(p)) == if PolicyIsKept(p) then Some(p) else None
  {
    EncodedPolicyHolds(p);
    RulesReadAgainIff(p.rules, p.actions, p.subjects, p.roles.Keys);
    FieldsMakePolicy(EncodePolicy(p), p, RulesAreKept(p.rules));
  }

  lemma NormalRulesAreKept(rules: seq<Rule>, actions: seq<string>, subjects: seq<string>, roles: set<string>)
    requires NormalRules(rules, actions, subjects, roles)
    ensures RulesAreKept(rules)
  {
    forall rule | rule in rules
      ensures RuleIsKept(rule)
    {
      if rule.when.Some? {
        WholeIsKept(rule.when.value);
      }
    }
  }

  lemma NormalPolicyIsAccepted(p: Policy)
    requires NormalPolicy(p)
    ensures Validate(EncodePolicy(p)) == Some(p)
  {
    NormalRulesAreKept(p.rules, p.actions, p.subjects, p.roles.Keys);
    ReadPolicyAgainIff(p);
  }

  /**
   Validating a validated policy changes nothing, unless holes left a list without names or a list of literals with
   `undefined` in it: then it is refused.
   */
  lemma ValidationIsIdempotent(v: Value)
    requires Validate(v).Some?
    ensures var p := Validate(v).value;
            && Validate(EncodePolicy(p)) == (if PolicyIsKept(p) then Some(p) else None)
            && (Solid(v) ==> PolicyIsKept(p))
  {
    AcceptedPolicyIsNormal(v);
    ReadPolicyAgainIff(Validate(v).value);
    if Solid(v) {
      var p := Validate(v).value;
      NormalRulesAreKept(p.rules, p.actions, p.subjects, p.roles.Keys);
    }
  }

  /** Arrays of one hole name nothing, and are accepted; the policy that results is refused. */
  lemma HolesAreAccepted(v: Value)
    requires v.Record? && v.own.Keys == {"actions", "subjects", "rules"}
    requires v.own["actions"].List? && v.own["actions"].items == [Hole]
    requires v.own["subjects"].List? && v.own["subjects"].items == [Hole]
    requires v.own["rules"].List? && v.own["rules"].items == []
    ensures Validate(v) == Some(Policy([], [], map[], []))
    ensures Validate(EncodePolicy(Policy([], [], map[], []))).None?
  {
    var holes := [Hole];
    assert holes[1..] == [];
    assert Texts(holes, x => Declarable(x)) == Some([]);
    ReadPolicyAgainIff(Policy([], [], map[], []));
  }
}
