/** Role inheritance (packages/access-control/src/internal/roles.ts). */
module Roles {
  import opened JsValue

  type Role = string
  type Inherits = map<Role, seq<Role>>

  function Parents(inherits: Inherits, role: Role): seq<Role> {
    if role in inherits then inherits[role] else []
  }

  predicate InheritsFrom(inherits: Inherits, role: Role, parent: Role) {
    role in inherits && parent in inherits[role]
  }

  /** `path` follows inheritance edges, one after the other. */
  ghost predicate IsPath(inherits: Inherits, path: seq<Role>) {
    path != [] && forall i :: 0 < i < |path| ==> InheritsFrom(inherits, path[i - 1], path[i])
  }

  /** `to` is `from`, or is inherited by it through any number of steps. */
  ghost predicate Reaches(inherits: Inherits, from: Role, to: Role) {
    exists path :: IsPath(inherits, path) && path[0] == from && path[|path| - 1] == to
  }

  lemma ReachesItself(inherits: Inherits, role: Role)
    ensures Reaches(inherits, role, role)
  {
    assert IsPath(inherits, [role]);
  }

  lemma ReachesParent(inherits: Inherits, from: Role, via: Role, to: Role)
    requires Reaches(inherits, from, via) && to in Parents(inherits, via)
    ensures Reaches(inherits, from, to)
  {
    var path :| IsPath(inherits, path) && path[0] == from && path[|path| - 1] == via;
    var longer := path + [to];
    assert IsPath(inherits, longer);
    assert longer[|longer| - 1] == to;
  }

  /** A set that holds a role and is closed under inheritance holds everything the role reaches. */
  lemma {:induction false} ClosedHoldsPath(inherits: Inherits, closed: set<Role>, path: seq<Role>)
    requires IsPath(inherits, path) && path[0] in closed
    requires forall r :: r in closed ==> forall p :: p in Parents(inherits, r) ==> p in closed
    ensures path[|path| - 1] in closed
    decreases |path|
  {
    if |path| > 1 {
      var rest := path[1..];
      assert forall i :: 0 < i < |rest| ==> rest[i] == path[i + 1] && rest[i - 1] == path[i];
      assert path[1] in Parents(inherits, path[0]);
      ClosedHoldsPath(inherits, closed, rest);
    }
  }

  function Mentioned(inherits: Inherits, roles: set<Role>): set<Role> {
    roles + set r, p | r in roles && p in Parents(inherits, r) :: p
  }

  /** Every parent of a role in `reached` is there too, or still pending. */
  ghost predicate ClosedUpTo(inherits: Inherits, reached: set<Role>, pending: seq<Role>) {
    forall r, p :: r in reached && p in Parents(inherits, r) ==> p in reached || p in pending
  }

  ghost predicate AllReached(inherits: Inherits, role: Role, roles: seq<Role>, universe: set<Role>) {
    forall r :: r in roles ==> r in universe && Reaches(inherits, role, r)
  }

  /** Taking `current` off the worklist and putting its parents on. */
  lemma ExpandOne(
    inherits: Inherits, role: Role, current: Role, reached: set<Role>, rest: seq<Role>, universe: set<Role>)
    requires ClosedUpTo(inherits, reached, rest + [current]) && AllReached(inherits, role, rest + [current], universe)
    requires universe == Mentioned(inherits, inherits.Keys + {role})
    ensures ClosedUpTo(inherits, reached + {current}, rest + Parents(inherits, current))
    ensures AllReached(inherits, role, rest + Parents(inherits, current), universe)
  {
    assert current in rest + [current];
    forall p | p in Parents(inherits, current)
      ensures p in universe && Reaches(inherits, role, p)
    {
      ReachesParent(inherits, role, current, p);
    }
    assert forall r :: r in rest ==> r in rest + [current];
  }

  lemma SkipOne(inherits: Inherits, role: Role, current: Role, reached: set<Role>, rest: seq<Role>, universe: set<Role>)
    requires current in reached
    requires ClosedUpTo(inherits, reached, rest + [current]) && AllReached(inherits, role, rest + [current], universe)
    ensures ClosedUpTo(inherits, reached, rest) && AllReached(inherits, role, rest, universe)
  {
  }

  /** The worklist of `buildRoleClosures` for one role: it ends, cycles or not, with exactly what the role reaches. */
  method Closure(inherits: Inherits, role: Role) returns (reached: set<Role>)
    ensures forall r :: r in reached <==> Reaches(inherits, role, r)
  {
    reached := {};
    var pending := [role];
    ghost var universe := Mentioned(inherits, inherits.Keys + {role});
    ReachesItself(inherits, role);
    while pending != []
      invariant reached <= universe && AllReached(inherits, role, pending, universe)
      invariant forall r :: r in reached ==> Reaches(inherits, role, r)
      invariant role in reached || role in pending
      invariant ClosedUpTo(inherits, reached, pending)
      decreases universe - reached, |pending|
    {
      var current := pending[|pending| - 1];
      assert pending == pending[..|pending| - 1] + [current];
      pending := pending[..|pending| - 1];
      if current !in reached {
        ExpandOne(inherits, role, current, reached, pending, universe);
        reached := reached + {current};
        pending := pending + Parents(inherits, current);
      } else {
        SkipOne(inherits, role, current, reached, pending, universe);
      }
    }
    forall r | Reaches(inherits, role, r)
      ensures r in reached
    {
      var path :| IsPath(inherits, path) && path[0] == role && path[|path| - 1] == r;
      ClosedHoldsPath(inherits, reached, path);
    }
  }

  ghost predicate AreClosures(inherits: Inherits, closures: map<Role, set<Role>>) {
    && closures.Keys == inherits.Keys
    && forall role, r | role in closures :: r in closures[role] <==> Reaches(inherits, role, r)
  }

  method BuildRoleClosures(inherits: Inherits) returns (closures: map<Role, set<Role>>)
    ensures AreClosures(inherits, closures)
  {
    closures := map[];
    var todo := inherits.Keys;
    while todo != {}
      invariant todo <= inherits.Keys && closures.Keys == inherits.Keys - todo
      invariant forall role, r | role in closures :: r in closures[role] <==> Reaches(inherits, role, r)
      decreases todo
    {
      var role :| role in todo;
      var reached := Closure(inherits, role);
      closures := closures[role := reached];
      todo := todo - {role};
    }
  }

  /** The role names a principal claims: the strings of its `roles`, when that is an array. */
  function Claims(claimed: Value): seq<Role> {
    if claimed.List? then ClaimsOf(claimed.items) else []
  }

  function ClaimsOf(items: seq<Value>): seq<Role> {
    if items == [] then []
    else (if items[0].Scalar? && items[0].prim.Text? then [items[0].prim.text] else []) + ClaimsOf(items[1..])
  }

  /** Every string in the array is claimed, and nothing else is. */
  lemma {:induction false} ClaimsAreTexts(items: seq<Value>, role: Role)
    ensures role in ClaimsOf(items) <==> Scalar(Text(role)) in items
  {
    if items != [] {
      ClaimsAreTexts(items[1..], role);
      assert items == [items[0]] + items[1..];
    }
  }

  /** A principal holds a role when a declared role it claims reaches it. */
  ghost predicate Holds(inherits: Inherits, claims: seq<Role>, role: Role) {
    exists claim :: claim in claims && claim in inherits && Reaches(inherits, claim, role)
  }

  lemma HoldsAppend(inherits: Inherits, claims: seq<Role>, last: Role, role: Role)
    ensures Holds(inherits, claims + [last], role) <==>
            Holds(inherits, claims, role) || (last in inherits && Reaches(inherits, last, role))
  {
  }

  /** The claims the policy never declared, each once, in the order they first appear. */
  function Undeclared(closures: map<Role, set<Role>>, claims: seq<Role>): (unknown: seq<Role>)
    ensures forall role :: role in unknown <==> role in claims && role !in closures
    ensures forall i, j :: 0 <= i < j < |unknown| ==> unknown[i] != unknown[j]
  {
    if claims == [] then []
    else
      var earlier, last := Undeclared(closures, claims[..|claims| - 1]), claims[|claims| - 1];
      assert forall role :: role in claims <==> role in claims[..|claims| - 1] || role == last;
      if last in closures || last in earlier then earlier else earlier + [last]
  }

  /** `x` is there, and before `y`. */
  ghost predicate StandsBefore<T>(s: seq<T>, x: T, y: T) {
    exists p :: 0 <= p < |s| && s[p] == x && y !in s[..p + 1]
  }

  lemma {:induction false} UndeclaredInOrder(closures: map<Role, set<Role>>, claims: seq<Role>, i: nat, j: nat)
    requires i < j < |Undeclared(closures, claims)|
    ensures StandsBefore(claims, Undeclared(closures, claims)[i], Undeclared(closures, claims)[j])
  {
    var unknown, n := Undeclared(closures, claims), |claims| - 1;
    var earlier := Undeclared(closures, claims[..n]);
    if j < |earlier| {
      UndeclaredInOrder(closures, claims[..n], i, j);
      var p :| 0 <= p < n && claims[p] == unknown[i] && unknown[j] !in claims[..n][..p + 1];
      assert claims[..n][..p + 1] == claims[..p + 1];
    } else {
      assert unknown[i] == earlier[i] && unknown[i] in claims[..n];
      var p :| 0 <= p < n && claims[..n][p] == unknown[i];
      assert forall role :: role in claims[..p + 1] ==> role in claims[..n];
      assert claims[p] == unknown[i] && unknown[j] !in claims[..p + 1];
    }
  }

  /** `roles` and `unknown` are what the claims seen so far amount to. */
  ghost predicate Expanded(
    inherits: Inherits, closures: map<Role, set<Role>>, claims: seq<Role>, roles: set<Role>, unknown: seq<Role>) {
    && unknown == Undeclared(closures, claims)
    && forall role :: role in roles <==> Holds(inherits, claims, role)
  }

  method ResolveClaim(
    closures: map<Role, set<Role>>, claim: Role, roles: set<Role>, unknown: seq<Role>,
    ghost inherits: Inherits, ghost claims: seq<Role>)
    returns (roles': set<Role>, unknown': seq<Role>)
    requires AreClosures(inherits, closures) && Expanded(inherits, closures, claims, roles, unknown)
    ensures Expanded(inherits, closures, claims + [claim], roles', unknown')
  {
    roles', unknown' := roles, unknown;
    if claim !in closures {
      if claim !in unknown {
        unknown' := unknown + [claim];
      }
    } else {
      roles' := roles + closures[claim];
    }
    assert (claims + [claim])[..|claims|] == claims;
    forall role
      ensures role in roles' <==> Holds(inherits, claims + [claim], role)
    {
      HoldsAppend(inherits, claims, claim, role);
    }
  }

  method ResolveEffectiveRoles(closures: map<Role, set<Role>>, claimed: Value, ghost inherits: Inherits)
    returns (roles: set<Role>, unknown: seq<Role>)
    requires AreClosures(inherits, closures)
    ensures Expanded(inherits, closures, Claims(claimed), roles, unknown)
  {
    roles, unknown := {}, [];
    if !claimed.List? {
      return;
    }
    var entries := claimed.items;
    ghost var claims := [];
    for i := 0 to |entries|
      invariant claims == ClaimsOf(entries[..i])
      invariant Expanded(inherits, closures, claims, roles, unknown)
    {
      ClaimsAppend(entries[..i], entries[i]);
      assert entries[..i + 1] == entries[..i] + [entries[i]];
      if entries[i].Scalar? && entries[i].prim.Text? {
        roles, unknown := ResolveClaim(closures, entries[i].prim.text, roles, unknown, inherits, claims);
        claims := claims + [entries[i].prim.text];
      } else {
        assert claims + [] == claims;
      }
    }
    assert entries[..|entries|] == entries;
  }

  lemma {:induction false} ClaimsAppend(items: seq<Value>, last: Value)
    ensures ClaimsOf(items + [last]) ==
            ClaimsOf(items) + (if last.Scalar? && last.prim.Text? then [last.prim.text] else [])
  {
    if items == [] {
      assert [last][1..] == [];
    } else {
      assert (items + [last])[1..] == items[1..] + [last];
      ClaimsAppend(items[1..], last);
    }
  }
}
