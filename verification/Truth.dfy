/** Kleene's three-valued logic (packages/access-control/src/internal/truth.ts). */
module Truth {
  datatype Ternary = True | False | Unknown

  function FromBoolean(b: bool): Ternary {
    if b then True else False
  }

  function Negate(t: Ternary): Ternary {
    match t
    case True => False
    case False => True
    case Unknown => Unknown
  }

  /** A counter-example settles a conjunction; otherwise an unknown leaves it open. */
  function Conjunction(operands: seq<Ternary>): Ternary {
    if False in operands then False else if Unknown in operands then Unknown else True
  }

  function Disjunction(operands: seq<Ternary>): Ternary {
    if True in operands then True else if Unknown in operands then Unknown else False
  }

  method All(operands: seq<Ternary>) returns (r: Ternary)
    ensures r == Conjunction(operands)
  {
    var sawUnknown := false;
    for i := 0 to |operands|
      invariant False !in operands[..i]
      invariant sawUnknown <==> Unknown in operands[..i]
    {
      if operands[i] == False {
        return False;
      }
      if operands[i] == Unknown {
        sawUnknown := true;
      }
    }
    assert operands[..|operands|] == operands;
    r := if sawUnknown then Unknown else True;
  }

  method Any(operands: seq<Ternary>) returns (r: Ternary)
    ensures r == Disjunction(operands)
  {
    var sawUnknown := false;
    for i := 0 to |operands|
      invariant True !in operands[..i]
      invariant sawUnknown <==> Unknown in operands[..i]
    {
      if operands[i] == True {
        return True;
      }
      if operands[i] == Unknown {
        sawUnknown := true;
      }
    }
    assert operands[..|operands|] == operands;
    r := if sawUnknown then Unknown else False;
  }

  /** `b` says at least as much as `a`, and nothing different. */
  predicate Refines(a: Ternary, b: Ternary) {
    a == Unknown || a == b
  }

  ghost predicate AllRefine(a: seq<Ternary>, b: seq<Ternary>) {
    |a| == |b| && forall i :: 0 <= i < |a| ==> Refines(a[i], b[i])
  }

  /** More information never changes a verdict already reached. */
  lemma ConnectivesAreMonotone(a: seq<Ternary>, b: seq<Ternary>)
    requires AllRefine(a, b)
    ensures Refines(Conjunction(a), Conjunction(b))
    ensures Refines(Disjunction(a), Disjunction(b))
  {
  }
}
