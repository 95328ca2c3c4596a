/**
 Attribute resolution and condition evaluation
 (packages/access-control/src/internal/resolve.ts and evaluate.ts).
 */
module Conditions {
  import opened JsValue
  import opened Truth

  const PRINCIPAL := "principal"
  const RESOURCE := "resource"
  const ENV := "env"

  /** The roots of one decision; `Undefined` is a root that was not supplied. */
  datatype Environment = Environment(principal: Value, resource: Value, env: Value)

  datatype Resolved = Present(value: Value) | Absent | Unresolved

  function Normalize(v: Value): Resolved {
    match v
    case Undefined => Absent
    case Null => Absent
    case Hole => Absent
    case Scalar(p) => if IsFinite(p) then Present(v) else Absent
    case Throws => Unresolved
    case _ => Present(v)
  }

  function ReadOwn(target: Value, key: string): Resolved {
    if (target.Record? || target.List?) && key in target.own then Normalize(target.own[key]) else Absent
  }

  function Root(environment: Environment, name: string): Value {
    if name == PRINCIPAL then environment.principal
    else if name == RESOURCE then environment.resource
    else if name == ENV then environment.env
    else Undefined
  }

  function Walk(from: Resolved, segments: seq<string>): Resolved
    decreases |segments|
  {
    if segments == [] || !from.Present? then from
    else Walk(ReadOwn(from.value, segments[0]), segments[1..])
  }

  function Resolve(environment: Environment, path: string): Resolved {
    var segments := Split(path, '.');
    var root := Root(environment, segments[0]);
    if |segments| == 1 || !(root.Record? || root.List?) then Unresolved
    else Walk(Present(root), segments[1..])
  }

  method ResolvePath(environment: Environment, path: string) returns (resolved: Resolved)
    ensures resolved == Resolve(environment, path)
  {
    var segments := Split(path, '.');
    var root, rest := segments[0], segments[1..];
    if rest == [] {
      return Unresolved;
    }
    var current;
    if root == PRINCIPAL {
      current := environment.principal;
    } else if root == RESOURCE {
      current := environment.resource;
    } else if root == ENV {
      current := environment.env;
    } else {
      return Unresolved;
    }
    if !(current.Record? || current.List?) {
      return Unresolved;
    }
    resolved := Present(current);
    for i := 0 to |rest|
      invariant Walk(resolved, rest[i..]) == Resolve(environment, path)
    {
      if !resolved.Present? {
        return resolved;
      }
      resolved := ReadOwn(resolved.value, rest[i]);
    }
  }

  datatype Operator = Eq | Ne | Gt | Gte | Lt | Lte | Contains | In | Nin

  datatype Literal = One(prim: Prim) | Many(items: seq<Value>)

  datatype Operand = Constant(literal: Literal) | Ref(path: string)

  /** `Gap` is a hole in a list of operands; `Malformed` is any shape the evaluator does not recognise. */
  datatype Condition =
    | AllOf(operands: seq<Condition>)
    | AnyOf(operands: seq<Condition>)
    | Not(inner: Condition)
    | Presence(path: string, wanted: bool)
    | Compare(path: string, op: Operator, operand: Operand)
    | Gap
    | Malformed

  function LiteralValue(literal: Literal): Value {
    match literal
    case One(p) => Scalar(p)
    case Many(items) => List(items, map[])
  }

  /** Whether some member is strictly equal to `p`. */
  predicate Member(items: seq<Value>, p: Prim) {
    exists i :: 0 <= i < |items| && items[i].Scalar? && StrictlyEqual(items[i].prim, p)
  }

  function Order(op: Operator, left: Prim, right: Prim): Ternary
    requires op.Gt? || op.Gte? || op.Lt? || op.Lte?
  {
    if IsNumber(left) && IsNumber(right) then
      FromBoolean(match op
                  case Gt => NumberLess(right, left)
                  case Gte => NumberLess(right, left) || StrictlyEqual(left, right)
                  case Lt => NumberLess(left, right)
                  case _ => NumberLess(left, right) || StrictlyEqual(left, right))
    else if left.Text? && right.Text? then
      FromBoolean(match op
                  case Gt => TextLess(right.text, left.text)
                  case Gte => !TextLess(left.text, right.text)
                  case Lt => TextLess(left.text, right.text)
                  case _ => !TextLess(right.text, left.text))
    else Unknown
  }

  function ApplyBinary(op: Operator, left: Resolved, right: Resolved): Ternary {
    if !left.Present? || !right.Present? then Unknown
    else
      var l, r := left.value, right.value;
      if op.In? || op.Nin? then
        if l.Scalar? && r.List? then FromBoolean(op.In? == Member(r.items, l.prim)) else Unknown
      else if op.Contains? then
        if l.List? && r.Scalar? then FromBoolean(Member(l.items, r.prim)) else Unknown
      else if !l.Scalar? || !r.Scalar? then Unknown
      else if op.Eq? then FromBoolean(StrictlyEqual(l.prim, r.prim))
      else if op.Ne? then FromBoolean(!StrictlyEqual(l.prim, r.prim))
      else Order(op, l.prim, r.prim)
  }

  function LeafVerdict(c: Condition, environment: Environment): Ternary
    requires c.Presence? || c.Compare?
  {
    var left := Resolve(environment, c.path);
    if c.Presence? then
      if left.Unresolved? then Unknown else FromBoolean(c.wanted == left.Present?)
    else
      match c.operand
      case Constant(literal) => ApplyBinary(c.op, left, Present(LiteralValue(literal)))
      case Ref(path) => ApplyBinary(c.op, left, Resolve(environment, path))
  }

  const MAX_CONDITION_DEPTH: nat := 32

  /** The evaluator, with its depth fuse. */
  function Evaluate(c: Condition, environment: Environment, depth: nat): Ternary
    decreases c, 1
  {
    if depth > MAX_CONDITION_DEPTH then Unknown
    else
      match c
      case AllOf(operands) =>
        if operands == [] then Unknown else Conjunction(EvaluateEach(operands, environment, depth + 1))
      case AnyOf(operands) =>
        if operands == [] then Unknown else Disjunction(EvaluateEach(operands, environment, depth + 1))
      case Not(inner) => Negate(Evaluate(inner, environment, depth + 1))
      case Gap => Unknown
      case Malformed => Unknown
      case _ => LeafVerdict(c, environment)
  }

  /** A gap has no verdict: `map` leaves it a hole, and `all` and `any` take what stands there for neither answer. */
  function EvaluateEach(cs: seq<Condition>, environment: Environment, depth: nat): seq<Ternary>
    decreases cs, 0
  {
    if cs == [] then []
    else if cs[0].Gap? then EvaluateEach(cs[1..], environment, depth)
    else [Evaluate(cs[0], environment, depth)] + EvaluateEach(cs[1..], environment, depth)
  }

  function EvaluateCondition(c: Condition, environment: Environment): Ternary {
    Evaluate(c, environment, 1)
  }

  // ----- The fuse is invisible to every condition that is not too deep -----

  /** Kleene's semantics, without a fuse. */
  function Meaning(c: Condition, environment: Environment): Ternary
    decreases c, 1
  {
    match c
    case AllOf(operands) => if operands == [] then Unknown else Conjunction(MeaningEach(operands, environment))
    case AnyOf(operands) => if operands == [] then Unknown else Disjunction(MeaningEach(operands, environment))
    case Not(inner) => Negate(Meaning(inner, environment))
    case Gap => Unknown
    case Malformed => Unknown
    case _ => LeafVerdict(c, environment)
  }

  function MeaningEach(cs: seq<Condition>, environment: Environment): seq<Ternary>
    decreases cs, 0
  {
    if cs == [] then []
    else if cs[0].Gap? then MeaningEach(cs[1..], environment)
    else [Meaning(cs[0], environment)] + MeaningEach(cs[1..], environment)
  }

  /** Nesting fits in `levels` levels, a leaf taking one. */
  predicate Fits(c: Condition, levels: int)
    decreases c, 1
  {
    levels >= 1 &&
    match c
    case AllOf(operands) => FitsEach(operands, levels - 1)
    case AnyOf(operands) => FitsEach(operands, levels - 1)
    case Not(inner) => Fits(inner, levels - 1)
    case _ => true
  }

  predicate FitsEach(cs: seq<Condition>, levels: int)
    decreases cs, 0
  {
    cs == [] || ((cs[0].Gap? || Fits(cs[0], levels)) && FitsEach(cs[1..], levels))
  }

  lemma {:induction false} FuseIsInvisible(c: Condition, environment: Environment, depth: nat)
    requires Fits(c, MAX_CONDITION_DEPTH + 1 - depth)
    ensures Evaluate(c, environment, depth) == Meaning(c, environment)
    decreases c, 1
  {
    match c
    case AllOf(operands) => FuseIsInvisibleEach(operands, environment, depth + 1);
    case AnyOf(operands) => FuseIsInvisibleEach(operands, environment, depth + 1);
    case Not(inner) => FuseIsInvisible(inner, environment, depth + 1);
    case _ =>
  }

  lemma {:induction false} FuseIsInvisibleEach(cs: seq<Condition>, environment: Environment, depth: nat)
    requires FitsEach(cs, MAX_CONDITION_DEPTH + 1 - depth)
    ensures EvaluateEach(cs, environment, depth) == MeaningEach(cs, environment)
    decreases cs, 0
  {
    if cs != [] {
      if !cs[0].Gap? {
        FuseIsInvisible(cs[0], environment, depth);
      }
      FuseIsInvisibleEach(cs[1..], environment, depth);
    }
  }

  // ----- More attributes never change a verdict already reached -----

  predicate Supplied(root: Value) {
    root.Record? || root.List?
  }

  predicate RootRefines(a: Value, b: Value) {
    !Supplied(a) || a == b
  }

  /** `b` supplies every root `a` does, unchanged, and perhaps more. */
  predicate EnvironmentRefines(a: Environment, b: Environment) {
    RootRefines(a.principal, b.principal) && RootRefines(a.resource, b.resource) && RootRefines(a.env, b.env)
  }

  lemma ResolveIsMonotone(path: string, a: Environment, b: Environment)
    requires EnvironmentRefines(a, b)
    ensures Resolve(a, path).Unresolved? || Resolve(a, path) == Resolve(b, path)
  {
  }

  lemma LeafIsMonotone(c: Condition, a: Environment, b: Environment)
    requires EnvironmentRefines(a, b) && (c.Presence? || c.Compare?)
    ensures Refines(LeafVerdict(c, a), LeafVerdict(c, b))
  {
    ResolveIsMonotone(c.path, a, b);
    if c.Compare? && c.operand.Ref? {
      ResolveIsMonotone(c.operand.path, a, b);
    }
  }

  lemma {:induction false} EvaluateIsMonotone(c: Condition, a: Environment, b: Environment, depth: nat)
    requires EnvironmentRefines(a, b)
    ensures Refines(Evaluate(c, a, depth), Evaluate(c, b, depth))
    decreases c, 1
  {
    match c
    case AllOf(operands) =>
      EvaluateEachIsMonotone(operands, a, b, depth + 1);
      ConnectivesAreMonotone(EvaluateEach(operands, a, depth + 1), EvaluateEach(operands, b, depth + 1));
    case AnyOf(operands) =>
      EvaluateEachIsMonotone(operands, a, b, depth + 1);
      ConnectivesAreMonotone(EvaluateEach(operands, a, depth + 1), EvaluateEach(operands, b, depth + 1));
    case Not(inner) => EvaluateIsMonotone(inner, a, b, depth + 1);
    case Gap =>
    case Malformed =>
    case _ => LeafIsMonotone(c, a, b);
  }

  lemma {:induction false} EvaluateEachIsMonotone(cs: seq<Condition>, a: Environment, b: Environment, depth: nat)
    requires EnvironmentRefines(a, b)
    ensures AllRefine(EvaluateEach(cs, a, depth), EvaluateEach(cs, b, depth))
    decreases cs, 0
  {
    if cs != [] {
      EvaluateIsMonotone(cs[0], a, b, depth);
      EvaluateEachIsMonotone(cs[1..], a, b, depth);
    }
  }
}
