/**
 The laws of paths, connectives and operators (packages/access-control/src/internal/resolve.ts, truth.ts and
 evaluate.ts), stated without reference to how they are computed.
 */
module OperatorLaws {
  import opened JsValue
  import opened Truth
  import opened Conditions

  // ----- Paths -----

  function Join(parts: seq<string>, separator: char): string {
    if parts == [] then ""
    else if |parts| == 1 then parts[0]
    else parts[0] + [separator] + Join(parts[1..], separator)
  }

  /** Splitting loses nothing and leaves no separator inside a part. */
  lemma {:induction false} SplitJoins(s: string, separator: char)
    ensures Join(Split(s, separator), separator) == s
    ensures forall part :: part in Split(s, separator) ==> separator !in part
  {
    if s != "" {
      SplitJoins(s[1..], separator);
      var rest := Split(s[1..], separator);
      assert [s[0]] + s[1..] == s;
      if s[0] == separator {
        assert ([""] + rest)[1..] == rest;
      } else {
        var parts := [[s[0]] + rest[0]] + rest[1..];
        assert parts[1..] == rest[1..];
        assert rest[0] in rest;
        if |rest| > 1 {
          assert [s[0]] + rest[0] + [separator] + Join(rest[1..], separator)
              == [s[0]] + (rest[0] + [separator] + Join(rest[1..], separator));
        }
      }
    }
  }

  lemma {:induction false} SplitOnce(key: string, separator: char)
    requires separator !in key
    ensures Split(key, separator) == [key]
  {
    if key != "" {
      SplitOnce(key[1..], separator);
      assert [key[0]] + key[1..] == key;
    }
  }

  lemma {:induction false} SplitExtends(s: string, key: string, separator: char)
    requires separator !in key
    ensures Split(s + [separator] + key, separator) == Split(s, separator) + [key]
  {
    var longer := s + [separator] + key;
    if s == "" {
      SplitOnce(key, separator);
      assert longer[1..] == key;
    } else {
      assert longer[1..] == s[1..] + [separator] + key;
      SplitExtends(s[1..], key, separator);
      var rest := Split(s[1..], separator);
      assert (rest + [key])[0] == rest[0] && (rest + [key])[1..] == rest[1..] + [key];
    }
  }

  lemma {:induction false} SplitApart(s: string, separator: char)
    ensures separator in s ==> |Split(s, separator)| > 1
  {
    if s != "" {
      SplitApart(s[1..], separator);
    }
  }

  lemma {:induction false} WalkExtends(from: Resolved, segments: seq<string>, key: string)
    ensures Walk(from, segments + [key])
            == (var end := Walk(from, segments); if end.Present? then ReadOwn(end.value, key) else end)
    decreases |segments|
  {
    if segments == [] {
      assert [key][1..] == [];
    } else {
      assert (segments + [key])[1..] == segments[1..] + [key];
      if from.Present? {
        WalkExtends(ReadOwn(from.value, segments[0]), segments[1..], key);
      }
    }
  }

  /** A value can be compared only if JSON could carry it; a read that throws leaves everything open. */
  lemma UsableValues(target: Value, key: string)
    requires target.Record? || target.List?
    ensures var read := ReadOwn(target, key);
            && (read.Unresolved? <==> key in target.own && target.own[key].Throws?)
            && (read.Absent? <==>
                  key !in target.own || target.own[key] in {Undefined, Null, Hole}
                  || (target.own[key].Scalar? && (target.own[key].prim.NaN? || target.own[key].prim.Infinite?)))
            && (read.Present? ==> key in target.own && read.value == target.own[key])
  {
  }

  /** A longer path reads one more own property of what the shorter one reached, if it reached a value. */
  lemma PathExtends(environment: Environment, path: string, key: string)
    requires '.' !in key && '.' in path
    ensures Resolve(environment, path + "." + key)
            == (var end := Resolve(environment, path); if end.Present? then ReadOwn(end.value, key) else end)
  {
    SplitExtends(path, key, '.');
    var segments := Split(path, '.');
    SplitApart(path, '.');
    var root := Root(environment, segments[0]);
    assert (segments + [key])[1..] == segments[1..] + [key];
    WalkExtends(Present(root), segments[1..], key);
  }

  // ----- Roots -----

  /** The path goes into the root of that name. */
  predicate StartsFrom(path: string, root: string) {
    root + "." <= path
  }

  lemma {:induction false} SplitFirst(s: string, first: string, separator: char)
    requires separator !in first && first + [separator] <= s
    ensures Split(s, separator) == [first] + Split(s[|first| + 1..], separator)
  {
    if first == "" {
      assert s[0] == separator;
    } else {
      assert s[1..][|first| - 1 + 1..] == s[|first| + 1..];
      assert first[1..] + [separator] <= s[1..];
      SplitFirst(s[1..], first[1..], separator);
      var rest := Split(s[1..], separator);
      assert [first[0]] + first[1..] == first;
      assert s[0] == first[0];
      assert [[s[0]] + rest[0]] + rest[1..] == [first] + Split(s[|first| + 1..], separator);
    }
  }

  lemma {:induction false} SplitStart(s: string, separator: char)
    ensures |Split(s, separator)| > 1 ==> Split(s, separator)[0] + [separator] <= s
  {
    if s != "" && s[0] != separator {
      SplitStart(s[1..], separator);
    }
  }

  /** A path reads nothing unless it goes into one of the three roots, and that one was supplied as an object. */
  lemma OtherPathsAreOpen(environment: Environment, path: string)
    ensures '.' !in path ==> Resolve(environment, path) == Unresolved
    ensures !(StartsFrom(path, "principal") || StartsFrom(path, "resource") || StartsFrom(path, "env")) ==>
              Resolve(environment, path) == Unresolved
    ensures StartsFrom(path, "principal") && !Supplied(environment.principal) ==>
              Resolve(environment, path) == Unresolved
    ensures StartsFrom(path, "resource") && !Supplied(environment.resource) ==> Resolve(environment, path) == Unresolved
    ensures StartsFrom(path, "env") && !Supplied(environment.env) ==> Resolve(environment, path) == Unresolved
  {
    SplitStart(path, '.');
    if '.' !in path {
      SplitOnce(path, '.');
    }
    if StartsFrom(path, "principal") {
      SplitFirst(path, "principal", '.');
    }
    if StartsFrom(path, "resource") {
      SplitFirst(path, "resource", '.');
    }
    if StartsFrom(path, "env") {
      SplitFirst(path, "env", '.');
    }
  }

  lemma TwoSegments(environment: Environment, root: string, key: string)
    requires '.' !in root && '.' !in key
    ensures var target := Root(environment, root);
            Resolve(environment, root + "." + key) == if Supplied(target) then ReadOwn(target, key) else Unresolved
  {
    var path := root + "." + key;
    SplitFirst(path, root, '.');
    SplitOnce(key, '.');
    assert path[|root| + 1..] == key;
    assert [root] + [key] == [root, key] && [root, key][1..] == [key] && [key][1..] == [];
    assert Split(path, '.') == [root, key];
    var target := Root(environment, root);
    assert Walk(Present(target), [key]) == Walk(ReadOwn(target, key), []);
  }

  /** A path of two segments reads an own property of the root it names, and of no other. */
  lemma PathsReadTheirRoot(environment: Environment, key: string)
    requires '.' !in key
    ensures Supplied(environment.principal) ==>
              Resolve(environment, "principal." + key) == ReadOwn(environment.principal, key)
    ensures Supplied(environment.resource) ==>
              Resolve(environment, "resource." + key) == ReadOwn(environment.resource, key)
    ensures Supplied(environment.env) ==> Resolve(environment, "env." + key) == ReadOwn(environment.env, key)
  {
    assert "principal" + "." == "principal." && "resource" + "." == "resource." && "env" + "." == "env.";
    TwoSegments(environment, "principal", key);
    TwoSegments(environment, "resource", key);
    TwoSegments(environment, "env", key);
  }

  /** Two environments that agree on every root but perhaps the one of that name. */
  predicate AgreeBut(root: string, a: Environment, b: Environment) {
    && (root == "principal" || a.principal == b.principal)
    && (root == "resource" || a.resource == b.resource)
    && (root == "env" || a.env == b.env)
  }

  /** Some path of the condition goes into the root of that name. */
  predicate Mentions(c: Condition, root: string)
    decreases c, 1
  {
    match c
    case AllOf(operands) => MentionsEach(operands, root)
    case AnyOf(operands) => MentionsEach(operands, root)
    case Not(inner) => Mentions(inner, root)
    case Presence(path, _) => StartsFrom(path, root)
    case Compare(path, _, Ref(ref)) => StartsFrom(path, root) || StartsFrom(ref, root)
    case Compare(path, _, _) => StartsFrom(path, root)
    case _ => false
  }

  predicate MentionsEach(cs: seq<Condition>, root: string)
    decreases cs, 0
  {
    cs != [] && (Mentions(cs[0], root) || MentionsEach(cs[1..], root))
  }

  lemma OtherRootsAreNotRead(path: string, root: string, a: Environment, b: Environment)
    requires AgreeBut(root, a, b) && !StartsFrom(path, root)
    ensures Resolve(a, path) == Resolve(b, path)
  {
    SplitStart(path, '.');
  }

  /** The verdict of a condition does not depend on a root that none of its paths goes into. */
  lemma {:induction false} UnmentionedRootsDoNotMatter(c: Condition, root: string, a: Environment, b: Environment,
                                                       depth: nat)
    requires AgreeBut(root, a, b) && !Mentions(c, root)
    ensures Evaluate(c, a, depth) == Evaluate(c, b, depth)
    decreases c, 1
  {
    match c
    case AllOf(operands) => UnmentionedInEach(operands, root, a, b, depth + 1);
    case AnyOf(operands) => UnmentionedInEach(operands, root, a, b, depth + 1);
    case Not(inner) => UnmentionedRootsDoNotMatter(inner, root, a, b, depth + 1);
    case Presence(path, _) => OtherRootsAreNotRead(path, root, a, b);
    case Compare(path, _, Ref(ref)) =>
      OtherRootsAreNotRead(path, root, a, b);
      OtherRootsAreNotRead(ref, root, a, b);
    case Compare(path, _, _) => OtherRootsAreNotRead(path, root, a, b);
    case _ =>
  }

  lemma {:induction false} UnmentionedInEach(cs: seq<Condition>, root: string, a: Environment, b: Environment,
                                             depth: nat)
    requires AgreeBut(root, a, b) && !MentionsEach(cs, root)
    ensures EvaluateEach(cs, a, depth) == EvaluateEach(cs, b, depth)
    decreases cs, 0
  {
    if cs != [] {
      UnmentionedRootsDoNotMatter(cs[0], root, a, b, depth);
      UnmentionedInEach(cs[1..], root, a, b, depth);
    }
  }

  // ----- Connectives -----

  function NegateEach(operands: seq<Ternary>): seq<Ternary> {
    seq(|operands|, i requires 0 <= i < |operands| => Negate(operands[i]))
  }

  /** A conjunction is true when every operand is, false when one is, and the two connectives are dual. */
  lemma ConnectivesAreDual(operands: seq<Ternary>)
    ensures Negate(Conjunction(operands)) == Disjunction(NegateEach(operands))
    ensures Conjunction(operands) == True <==> forall i :: 0 <= i < |operands| ==> operands[i] == True
    ensures Conjunction(operands) == False <==> exists i :: 0 <= i < |operands| && operands[i] == False
  {
    var negated := NegateEach(operands);
    forall i | 0 <= i < |operands|
      ensures negated[i] in negated && operands[i] in operands
    {
    }
  }

  // ----- Operators -----

  function Apply(op: Operator, left: Prim, right: Prim): Ternary {
    ApplyBinary(op, Present(Scalar(left)), Present(Scalar(right)))
  }

  predicate Comparable(a: Prim, b: Prim) {
    (IsNumber(a) && IsNumber(b)) || (a.Text? && b.Text?)
  }

  /** When a binary operator gives a definite answer: nothing missing, and the shapes it is for. */
  predicate Decidable(op: Operator, left: Resolved, right: Resolved) {
    left.Present? && right.Present? &&
    (match op
     case In => left.value.Scalar? && right.value.List?
     case Nin => left.value.Scalar? && right.value.List?
     case Contains => left.value.List? && right.value.Scalar?
     case Eq => left.value.Scalar? && right.value.Scalar?
     case Ne => left.value.Scalar? && right.value.Scalar?
     case _ => left.value.Scalar? && right.value.Scalar? && Comparable(left.value.prim, right.value.prim))
  }

  /** Nothing missing, nothing coerced: every other combination is unknown, and these never are. */
  lemma UnknownIffUndecidable(op: Operator, left: Resolved, right: Resolved)
    ensures ApplyBinary(op, left, right) == Unknown <==> !Decidable(op, left, right)
  {
  }

  lemma {:induction false} TextTrichotomy(a: string, b: string)
    ensures TextLess(a, b) || a == b || TextLess(b, a)
    ensures !(TextLess(a, b) && TextLess(b, a)) && (a == b ==> !TextLess(a, b))
  {
    if a != "" && b != "" {
      TextTrichotomy(a[1..], b[1..]);
      assert a == [a[0]] + a[1..] && b == [b[0]] + b[1..];
    }
  }

  lemma {:induction false} TextLessTransitive(a: string, b: string, c: string)
    requires TextLess(a, b) && TextLess(b, c)
    ensures TextLess(a, c)
  {
    if a != "" && a[0] == b[0] == c[0] {
      TextLessTransitive(a[1..], b[1..], c[1..]);
    }
  }

  lemma {:induction false} PrefixIsLess(a: string, more: string)
    requires more != ""
    ensures TextLess(a, a + more)
  {
    if a == "" {
      assert a + more == more;
    } else {
      PrefixIsLess(a[1..], more);
      assert (a + more)[1..] == a[1..] + more;
    }
  }

  /** Of two comparable values, NaN aside, exactly one of lt, eq and gt holds, and gte and lte are their complements. */
  lemma OrderIsTotal(a: Prim, b: Prim)
    requires Comparable(a, b) && !a.NaN? && !b.NaN?
    ensures Apply(Lt, a, b) == Apply(Gt, b, a)
    ensures Apply(Gte, a, b) == Negate(Apply(Lt, a, b)) && Apply(Lte, a, b) == Negate(Apply(Gt, a, b))
    ensures Apply(Eq, a, b) == True <==> Apply(Lt, a, b) == False && Apply(Gt, a, b) == False
    ensures !(Apply(Lt, a, b) == True && Apply(Gt, a, b) == True)
  {
    if a.Text? {
      TextTrichotomy(a.text, b.text);
    }
  }

  lemma OrderIsTransitive(a: Prim, b: Prim, c: Prim)
    requires Apply(Lt, a, b) == True && Apply(Lt, b, c) == True
    ensures Apply(Lt, a, c) == True
  {
    if a.Text? {
      TextLessTransitive(a.text, b.text, c.text);
    }
  }

  /** The order is the usual one on numbers, a proper prefix comes first, and no order holds with NaN. */
  lemma OrderIsTheUsualOne(x: real, y: real, text: string, more: string, p: Prim, op: Operator)
    requires more != "" && IsNumber(p) && (op.Lt? || op.Lte? || op.Gt? || op.Gte?)
    ensures Apply(Lt, Number(x), Number(y)) == True <==> x < y
    ensures Apply(Lt, Text(text), Text(text + more)) == True
    ensures Apply(op, NaN, p) == False && Apply(op, p, NaN) == False
  {
    PrefixIsLess(text, more);
  }

  /** `nin` and `ne` are the negations of `in` and `eq`, and `contains` is `in` the other way round. */
  lemma OperatorsAreDual(left: Resolved, right: Resolved)
    ensures ApplyBinary(Nin, left, right) == Negate(ApplyBinary(In, left, right))
    ensures ApplyBinary(Ne, left, right) == Negate(ApplyBinary(Eq, left, right))
    ensures ApplyBinary(Contains, left, right) == ApplyBinary(In, right, left)
  {
  }

  /**
   A negated operator holds exactly when its operands are there, have the shapes it is for, and the operator it negates
   does not hold: a missing attribute satisfies neither, and `contains` is held to the same.
   */
  lemma NegationNeedsOperands(left: Resolved, right: Resolved)
    ensures ApplyBinary(Nin, left, right) == True <==>
            Decidable(Nin, left, right) && ApplyBinary(In, left, right) != True
    ensures ApplyBinary(Ne, left, right) == True <==> Decidable(Ne, left, right) && ApplyBinary(Eq, left, right) != True
    ensures ApplyBinary(Contains, left, right) == False <==>
            Decidable(In, right, left) && ApplyBinary(In, right, left) != True
  {
    OperatorsAreDual(left, right);
    UnknownIffUndecidable(In, left, right);
    UnknownIffUndecidable(Eq, left, right);
    UnknownIffUndecidable(In, right, left);
  }

  /** Membership is equality with some member, whatever else the array holds; NaN is a member of nothing. */
  lemma MembershipIsEquality(a: Prim, items: seq<Value>, own: map<string, Value>)
    ensures ApplyBinary(In, Present(Scalar(a)), Present(List(items, own))) == True <==>
            exists i :: 0 <= i < |items| && items[i].Scalar? && Apply(Eq, a, items[i].prim) == True
    ensures Apply(Eq, a, a) == if a.NaN? then False else True
  {
    if Member(items, a) {
      var i :| 0 <= i < |items| && items[i].Scalar? && StrictlyEqual(items[i].prim, a);
      assert Apply(Eq, a, items[i].prim) == True;
    }
    if i :| 0 <= i < |items| && items[i].Scalar? && Apply(Eq, a, items[i].prim) == True {
      assert StrictlyEqual(items[i].prim, a);
    }
  }

  /** An attribute that is the literal, or an array of the same items with whatever properties of its own. */
  predicate MatchesLiteral(v: Value, literal: Literal) {
    if literal.One? then v == Scalar(literal.prim) else v.List? && v.items == literal.items
  }

  /** A reference decides like the literal that it leads to, on the same side of the operator. */
  lemma ReferencesAreLiterals(path: string, op: Operator, ref: string, literal: Literal, environment: Environment)
    requires Resolve(environment, ref).Present? && MatchesLiteral(Resolve(environment, ref).value, literal)
    ensures LeafVerdict(Compare(path, op, Ref(ref)), environment)
            == LeafVerdict(Compare(path, op, Constant(literal)), environment)
  {
  }

  /** Presence is the one thing decided about a missing attribute; a root not supplied leaves even that unknown. */
  lemma PresenceDecidesAbsence(path: string, environment: Environment)
    ensures LeafVerdict(Presence(path, true), environment) == Negate(LeafVerdict(Presence(path, false), environment))
    ensures LeafVerdict(Presence(path, true), environment) == Unknown <==> Resolve(environment, path).Unresolved?
    ensures LeafVerdict(Presence(path, true), environment) == True <==> Resolve(environment, path).Present?
  {
  }

  /**
   Presence along a path: of an object that the path leads to, `exists` holds exactly of the own properties that JSON
   could carry, and is open exactly for those whose read throws; past anything else it fails, unless the path itself
   was open.
   */
  lemma PresenceAlongPath(environment: Environment, path: string, key: string)
    requires '.' !in key && '.' in path
    ensures var end, verdict := Resolve(environment, path), LeafVerdict(Presence(path + "." + key, true), environment);
            if end.Unresolved? then verdict == Unknown
            else if end.Absent? || !(end.value.Record? || end.value.List?) then verdict == False
            else
              && (verdict == Unknown <==> key in end.value.own && end.value.own[key].Throws?)
              && (verdict == False <==>
                    key !in end.value.own || end.value.own[key] in {Undefined, Null, Hole}
                    || (end.value.own[key].Scalar? && !IsFinite(end.value.own[key].prim)))
  {
    PathExtends(environment, path, key);
    PresenceDecidesAbsence(path + "." + key, environment);
    var end := Resolve(environment, path);
    if end.Present? && (end.value.Record? || end.value.List?) {
      UsableValues(end.value, key);
    }
  }
}
