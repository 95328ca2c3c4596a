/**
 Error serialisation over cause graphs, cyclic ones included, and back
 (packages/core/src/errors.ts).
 */
module ErrorChains {
  import opened Options

  const MAX_CAUSE_DEPTH := 16

  const BUILT_IN_KINDS := {"AppError", "ValidationError", "NotFoundError", "ForbiddenError", "UnauthorizedError",
                           "ConflictError", "NetworkError"}

  /** A value off the wire; arrays are objects with index keys. */
  datatype Wire =
    | Undefined
    | Null
    | Text(text: string)
    | Number(value: real)
    | Boolean(truth: bool)
    | Object(fields: map<string, Wire>)

  function Read(v: Wire, key: string): Wire {
    if v.Object? && key in v.fields then v.fields[key] else Undefined
  }

  type Id = nat

  /** A thrown value: none at all, a primitive as it prints, or an object. */
  datatype Thrown = Missing | Bare(text: string) | Ref(id: Id)

  datatype AppFields = AppFields(kind: string, code: string, httpStatus: real, details: Wire)

  /**
   An object that can be thrown. `name` and `message` are `None` when reading them gives no string, or throws;
   `printed` is what the object prints as; `app` is there for an `AppError`.
   */
  datatype Node = Node(name: Option<string>, message: Option<string>, printed: string, cause: Thrown,
                       app: Option<AppFields>)

  /** An object is its index; objects created later come after. */
  type Heap = seq<Node>

  predicate InHeap(heap: Heap, t: Thrown) {
    t.Ref? ==> t.id < |heap|
  }

  predicate Closed(heap: Heap) {
    forall i :: 0 <= i < |heap| ==> InHeap(heap, heap[i].cause)
  }

  /** One serialised link, and the chain behind it. `details` are omitted when `Undefined`. */
  datatype Link = Link(name: string, message: string, app: Option<AppFields>, cause: Option<Link>)

  function NameOf(n: Node): string {
    if n.name.Some? then n.name.value else "Error"
  }

  function MessageOf(n: Node): string {
    if n.message.Some? then n.message.value else n.printed
  }

  function Serialize(heap: Heap, t: Thrown, seen: set<Id>, depth: nat): Option<Link>
    requires Closed(heap) && InHeap(heap, t)
    decreases MAX_CAUSE_DEPTH + 1 - depth
  {
    if depth > MAX_CAUSE_DEPTH || t.Missing? then None
    else if t.Bare? then Some(Link("NonError", t.text, None, None))
    else if t.id in seen then None
    else
      var node := heap[t.id];
      Some(Link(NameOf(node), MessageOf(node), node.app, Serialize(heap, node.cause, seen + {t.id}, depth + 1)))
  }

  class SeenSet {
    var ids: set<Id>

    constructor ()
      ensures ids == {}
    {
      ids := {};
    }
  }

  method SerializeUnknownError(heap: Heap, t: Thrown, seen: SeenSet, depth: nat) returns (link: Option<Link>)
    requires Closed(heap) && InHeap(heap, t)
    modifies seen
    ensures old(seen.ids) <= seen.ids
    ensures link == Serialize(heap, t, old(seen.ids), depth)
    decreases MAX_CAUSE_DEPTH + 1 - depth
  {
    if depth > MAX_CAUSE_DEPTH {
      return None;
    }
    if t.Missing? {
      return None;
    }
    if t.Bare? {
      return Some(Link("NonError", t.text, None, None));
    }
    if t.id in seen.ids {
      return None;
    }
    seen.ids := seen.ids + {t.id};
    var node := heap[t.id];
    var cause := SerializeUnknownError(heap, node.cause, seen, depth + 1);
    return Some(Link(NameOf(node), MessageOf(node), node.app, cause));
  }

  /** `toJSON` of the object `e`. */
  function ToJson(heap: Heap, e: Id): Link
    requires Closed(heap) && e < |heap|
  {
    Serialize(heap, Ref(e), {}, 0).value
  }

  function Length(link: Option<Link>): nat
    decreases link
  {
    if link.None? then 0 else 1 + Length(link.value.cause)
  }

  // ----- Parsing -----

  /** The plain object that `toJSON` returns. */
  function Encode(link: Link): Wire
    decreases link
  {
    var plain := map["name" := Text(link.name), "message" := Text(link.message)];
    var fields := if link.app.None? then plain else WithApp(plain, link.app.value);
    Object(if link.cause.None? then fields else fields["cause" := Encode(link.cause.value)])
  }

  function WithApp(fields: map<string, Wire>, app: AppFields): map<string, Wire> {
    var tagged := fields["kind" := Text(app.kind)]["code" := Text(app.code)]["httpStatus" := Number(app.httpStatus)];
    if app.details.Undefined? then tagged else tagged["details" := app.details]
  }

  predicate LooksLikeAppError(v: Wire) {
    Read(v, "name").Text? && Read(v, "message").Text? && Read(v, "code").Text? && Read(v, "httpStatus").Number?
  }

  /** `kind` alone selects the class; an unknown one falls back to `AppError`. */
  function ClassFor(kind: Wire): string {
    if kind.Text? && kind.text in BUILT_IN_KINDS then kind.text else "AppError"
  }

  function AsThrown(id: Option<Id>): Thrown {
    if id.Some? then Ref(id.value) else Missing
  }

  function ReviveApp(heap: Heap, v: Wire, depth: nat): (r: (Heap, Option<Id>))
    ensures heap <= r.0
    ensures r.1.Some? ==> |heap| <= r.1.value == |r.0| - 1
    decreases MAX_CAUSE_DEPTH + 2 - depth, 0
  {
    if depth > MAX_CAUSE_DEPTH || !LooksLikeAppError(v) then (heap, None)
    else
      var (earlier, cause) := ReviveCause(heap, Read(v, "cause"), depth + 1);
      var app := AppFields(ClassFor(Read(v, "kind")), Read(v, "code").text, Read(v, "httpStatus").value,
                           Read(v, "details"));
      var node := Node(Some(Read(v, "name").text), Some(Read(v, "message").text), "", AsThrown(cause), Some(app));
      (earlier + [node], Some(|earlier|))
  }

  function RevivePlain(heap: Heap, v: Wire, depth: nat): (r: (Heap, Option<Id>))
    requires depth <= MAX_CAUSE_DEPTH
    ensures heap <= r.0
    ensures r.1.Some? ==> |heap| <= r.1.value == |r.0| - 1
    decreases MAX_CAUSE_DEPTH + 2 - depth, 0
  {
    var (earlier, cause) := ReviveCause(heap, Read(v, "cause"), depth + 1);
    var name := if Read(v, "name").Text? then Read(v, "name").text else "Error";
    var message := if Read(v, "message").Text? then Read(v, "message").text else "";
    (earlier + [Node(Some(name), Some(message), "", AsThrown(cause), None)], Some(|earlier|))
  }

  function ReviveCause(heap: Heap, v: Wire, depth: nat): (r: (Heap, Option<Id>))
    ensures heap <= r.0
    ensures r.1.Some? ==> |heap| <= r.1.value == |r.0| - 1
    decreases MAX_CAUSE_DEPTH + 2 - depth, 1
  {
    if depth > MAX_CAUSE_DEPTH || !v.Object? then (heap, None)
    else
      var app := ReviveApp(heap, v, depth);
      if app.1.Some? then app else RevivePlain(heap, v, depth)
  }

  predicate HasText(v: Wire, key: string) {
    v.Object? && key in v.fields && v.fields[key].Text?
  }

  predicate HasNumber(v: Wire, key: string) {
    v.Object? && key in v.fields && v.fields[key].Number?
  }

  /** `fromJSON`: `None` stands for the `ValidationError` result; it never throws. */
  function FromJson(heap: Heap, v: Wire): (r: (Heap, Option<Id>))
    ensures r.1.Some? <==>
              HasText(v, "name") && HasText(v, "message") && HasText(v, "code") && HasNumber(v, "httpStatus")
  {
    ReviveApp(heap, v, 0)
  }

  // ----- What toJSON emits -----

  /** The `n`-th thrown value along the causes; the first is `t` itself. */
  function CauseAt(heap: Heap, t: Thrown, n: nat): (r: Thrown)
    requires Closed(heap) && InHeap(heap, t)
    ensures InHeap(heap, r)
  {
    if n == 0 then t
    else
      var before := CauseAt(heap, t, n - 1);
      if before.Ref? then heap[before.id].cause else Missing
  }

  function LinkAt(link: Option<Link>, n: nat): Option<Link>
    decreases n
  {
    if link.None? || n == 0 then link else LinkAt(link.value.cause, n - 1)
  }

  /** The fields of `link`, its cause aside, are those of `t`. */
  predicate Describes(heap: Heap, t: Thrown, link: Link)
    requires InHeap(heap, t)
  {
    if t.Ref? then
      var node := heap[t.id];
      && (link.name == if node.name.None? then "Error" else node.name.value)
      && (link.message == if node.message.None? then node.printed else node.message.value)
      && link.app == node.app
    else t.Bare? && link.name == "NonError" && link.message == t.text && link.app.None?
  }

  lemma {:induction false} CauseAtNext(heap: Heap, id: Id, n: nat)
    requires Closed(heap) && id < |heap|
    ensures CauseAt(heap, Ref(id), n + 1) == CauseAt(heap, heap[id].cause, n)
  {
    if n > 0 {
      CauseAtNext(heap, id, n - 1);
    }
  }

  lemma {:induction false} LengthIsBounded(heap: Heap, t: Thrown, seen: set<Id>, depth: nat)
    requires Closed(heap) && InHeap(heap, t) && depth <= MAX_CAUSE_DEPTH + 1
    ensures Length(Serialize(heap, t, seen, depth)) <= MAX_CAUSE_DEPTH + 1 - depth
    decreases MAX_CAUSE_DEPTH + 1 - depth
  {
    if depth <= MAX_CAUSE_DEPTH && t.Ref? && t.id !in seen {
      LengthIsBounded(heap, heap[t.id].cause, seen + {t.id}, depth + 1);
    }
  }

  lemma {:induction false} LinkDescribesCause(heap: Heap, t: Thrown, seen: set<Id>, depth: nat, n: nat)
    requires Closed(heap) && InHeap(heap, t) && n < Length(Serialize(heap, t, seen, depth))
    ensures var link, thrown := LinkAt(Serialize(heap, t, seen, depth), n), CauseAt(heap, t, n);
            link.Some? && Describes(heap, thrown, link.value) && (thrown.Ref? ==> thrown.id !in seen)
    decreases n
  {
    if n > 0 && t.Ref? {
      LinkDescribesCause(heap, heap[t.id].cause, seen + {t.id}, depth + 1, n - 1);
      CauseAtNext(heap, t.id, n - 1);
    }
  }

  lemma {:induction false} LinksAreDistinct(heap: Heap, t: Thrown, seen: set<Id>, depth: nat, i: nat, j: nat)
    requires Closed(heap) && InHeap(heap, t) && i < j < Length(Serialize(heap, t, seen, depth))
    ensures CauseAt(heap, t, i) != CauseAt(heap, t, j)
    decreases i
  {
    if t.Ref? {
      var cause := heap[t.id].cause;
      CauseAtNext(heap, t.id, j - 1);
      if i == 0 {
        LinkDescribesCause(heap, cause, seen + {t.id}, depth + 1, j - 1);
      } else {
        CauseAtNext(heap, t.id, i - 1);
        LinksAreDistinct(heap, cause, seen + {t.id}, depth + 1, i - 1, j - 1);
      }
    }
  }

  /** The chain breaks off at a repeated object, at a missing cause, or at the depth limit. */
  ghost predicate EndsAt(heap: Heap, t: Thrown, seen: set<Id>, limit: nat, n: nat)
    requires Closed(heap) && InHeap(heap, t)
  {
    var last := CauseAt(heap, t, n);
    n == limit || last.Missing?
    || (last.Ref? && (last.id in seen || exists i :: 0 <= i < n && CauseAt(heap, t, i) == last))
  }

  lemma {:induction false} ChainEnds(heap: Heap, t: Thrown, seen: set<Id>, depth: nat)
    requires Closed(heap) && InHeap(heap, t) && depth <= MAX_CAUSE_DEPTH + 1
    ensures EndsAt(heap, t, seen, MAX_CAUSE_DEPTH + 1 - depth, Length(Serialize(heap, t, seen, depth)))
    decreases MAX_CAUSE_DEPTH + 1 - depth
  {
    if depth <= MAX_CAUSE_DEPTH && t.Ref? && t.id !in seen {
      var cause, more := heap[t.id].cause, seen + {t.id};
      var n := Length(Serialize(heap, cause, more, depth + 1));
      ChainEnds(heap, cause, more, depth + 1);
      CauseAtNext(heap, t.id, n);
      var last := CauseAt(heap, cause, n);
      if last == t {
        assert CauseAt(heap, t, 0) == last;
      } else if i :| 0 <= i < n && CauseAt(heap, cause, i) == last {
        CauseAtNext(heap, t.id, i);
        assert CauseAt(heap, t, i + 1) == last;
      }
    }
  }

  /**
   On any graph `toJSON` lists the objects along the causes, in order and each once, at most 17 of them, up to the
   first that is missing or already listed.
   */
  lemma ToJsonFollowsCauses(heap: Heap, e: Id)
    requires Closed(heap) && e < |heap|
    ensures var chain := Some(ToJson(heap, e));
            && 1 <= Length(chain) <= 17
            && EndsAt(heap, Ref(e), {}, 17, Length(chain))
            && (forall n :: 0 <= n < Length(chain) ==>
                  LinkAt(chain, n).Some? && Describes(heap, CauseAt(heap, Ref(e), n), LinkAt(chain, n).value))
            && (forall i, j :: 0 <= i < j < Length(chain) ==> CauseAt(heap, Ref(e), i) != CauseAt(heap, Ref(e), j))
  {
    var chain := Serialize(heap, Ref(e), {}, 0);
    LengthIsBounded(heap, Ref(e), {}, 0);
    ChainEnds(heap, Ref(e), {}, 0);
    forall n | 0 <= n < Length(chain)
      ensures LinkAt(chain, n).Some? && Describes(heap, CauseAt(heap, Ref(e), n), LinkAt(chain, n).value)
    {
      LinkDescribesCause(heap, Ref(e), {}, 0, n);
    }
    forall i, j | 0 <= i < j < Length(chain)
      ensures CauseAt(heap, Ref(e), i) != CauseAt(heap, Ref(e), j)
    {
      LinksAreDistinct(heap, Ref(e), {}, 0, i, j);
    }
  }

  // ----- Round trips -----

  /** `link` with every kind the registry does not know replaced by the one it falls back to. */
  function Normalised(link: Link): Link
    decreases link
  {
    Link(link.name, link.message,
         if link.app.None? then None else Some(link.app.value.(kind := ClassFor(Text(link.app.value.kind)))),
         if link.cause.None? then None else Some(Normalised(link.cause.value)))
  }

  predicate KindsAreBuiltIn(link: Link)
    decreases link
  {
    && (link.app.Some? ==> link.app.value.kind in BUILT_IN_KINDS)
    && (link.cause.Some? ==> KindsAreBuiltIn(link.cause.value))
  }

  lemma {:induction false} UnchangedIffBuiltIn(link: Link)
    ensures Normalised(link) == link <==> KindsAreBuiltIn(link)
    decreases link
  {
    if link.cause.Some? {
      UnchangedIffBuiltIn(link.cause.value);
    }
  }

  /** What `toJSON` writes for a link: these fields and no others, `details` and `cause` only when there are any. */
  lemma FieldsWritten(link: Link)
    ensures Encode(link).Object?
    ensures link.app.None? ==>
              Encode(link).fields.Keys == {"name", "message"} + (if link.cause.Some? then {"cause"} else {})
    ensures link.app.Some? ==>
              Encode(link).fields.Keys ==
                {"name", "message", "kind", "code", "httpStatus"} + (if link.cause.Some? then {"cause"} else {})
                + (if link.app.value.details != Undefined then {"details"} else {})
  {
  }

  lemma EncodedFields(link: Link)
    ensures var v := Encode(link);
            && Read(v, "name") == Text(link.name) && Read(v, "message") == Text(link.message)
            && Read(v, "cause") == (if link.cause.None? then Undefined else Encode(link.cause.value))
            && (link.app.None? ==> !LooksLikeAppError(v))
            && (link.app.Some? ==>
                  && LooksLikeAppError(v)
                  && Read(v, "kind") == Text(link.app.value.kind) && Read(v, "code") == Text(link.app.value.code)
                  && Read(v, "httpStatus") == Number(link.app.value.httpStatus)
                  && Read(v, "details") == link.app.value.details)
  {
  }

  /** Objects revived into a heap serialise to what they were revived from, whatever is created afterwards. */
  lemma {:induction false} RevivedSerializes(heap: Heap, full: Heap, link: Link, depth: nat, seen: set<Id>)
    requires depth + Length(Some(link)) <= MAX_CAUSE_DEPTH + 1
    requires Closed(full) && ReviveCause(heap, Encode(link), depth).0 <= full
    requires forall id :: id in seen ==> id >= |ReviveCause(heap, Encode(link), depth).0|
    ensures var id := ReviveCause(heap, Encode(link), depth).1;
            id.Some? && Serialize(full, Ref(id.value), seen, depth) == Some(Normalised(link))
    decreases link
  {
    RevivedNode(heap, link, depth);
    var (revived, id) := ReviveCause(heap, Encode(link), depth);
    var (earlier, cause) := RevivedTail(heap, link, depth);
    assert full[id.value] == revived[id.value];
    assert earlier <= full;
    if link.cause.Some? {
      RevivedSerializes(heap, full, link.cause.value, depth + 1, seen + {id.value});
    }
  }

  /** What reviving `link` creates before its own object: the objects of the chain behind it. */
  function RevivedTail(heap: Heap, link: Link, depth: nat): (r: (Heap, Option<Id>))
    ensures heap <= r.0 && (r.1.Some? ==> |heap| <= r.1.value < |r.0|)
  {
    if link.cause.None? then (heap, None) else ReviveCause(heap, Encode(link.cause.value), depth + 1)
  }

  /** The object that `link` is revived as. */
  lemma RevivedNode(heap: Heap, link: Link, depth: nat)
    requires depth <= MAX_CAUSE_DEPTH
    ensures var (revived, id) := ReviveCause(heap, Encode(link), depth);
            var (earlier, cause) := RevivedTail(heap, link, depth);
            && id == Some(|earlier|)
            && revived == earlier + [Node(Some(link.name), Some(link.message), "", AsThrown(cause),
                                          Normalised(link).app)]
  {
    EncodedFields(link);
    var v := Encode(link);
    assert ReviveCause(heap, Read(v, "cause"), depth + 1) == RevivedTail(heap, link, depth);
    if link.app.Some? {
      assert ReviveCause(heap, v, depth) == ReviveApp(heap, v, depth);
    } else {
      assert ReviveCause(heap, v, depth) == RevivePlain(heap, v, depth);
    }
  }

  lemma {:induction false} ReviveKeepsClosed(heap: Heap, v: Wire, depth: nat)
    requires Closed(heap)
    ensures Closed(ReviveCause(heap, v, depth).0)
    decreases MAX_CAUSE_DEPTH + 2 - depth
  {
    if depth <= MAX_CAUSE_DEPTH {
      ReviveKeepsClosed(heap, Read(v, "cause"), depth + 1);
    }
  }

  /** The object built from one link off the wire, its cause aside. */
  predicate Rebuilds(node: Node, v: Wire) {
    if HasText(v, "name") && HasText(v, "message") && HasText(v, "code") && HasNumber(v, "httpStatus") then
      && node.name == Some(v.fields["name"].text) && node.message == Some(v.fields["message"].text)
      && node.app.Some? && node.app.value.code == v.fields["code"].text
      && node.app.value.httpStatus == v.fields["httpStatus"].value
      && node.app.value.kind == (if HasText(v, "kind") && v.fields["kind"].text in BUILT_IN_KINDS
                                 then v.fields["kind"].text else "AppError")
      && node.app.value.details == (if "details" in v.fields then v.fields["details"] else Undefined)
    else
      && node.app.None?
      && node.name == Some(if HasText(v, "name") then v.fields["name"].text else "Error")
      && node.message == Some(if HasText(v, "message") then v.fields["message"].text else "")
  }

  /** `t` and its causes are built from `v` and what its `cause` fields hold, up to the depth limit. */
  predicate Rebuilt(heap: Heap, t: Thrown, v: Wire, depth: nat)
    decreases MAX_CAUSE_DEPTH + 1 - depth
  {
    if depth > MAX_CAUSE_DEPTH || !v.Object? then t == Missing
    else
      && t.Ref? && t.id < |heap| && Rebuilds(heap[t.id], v)
      && Rebuilt(heap, heap[t.id].cause, if "cause" in v.fields then v.fields["cause"] else Undefined, depth + 1)
  }

  lemma {:induction false} RevivedIsRebuilt(heap: Heap, full: Heap, v: Wire, depth: nat)
    requires ReviveCause(heap, v, depth).0 <= full
    ensures Rebuilt(full, AsThrown(ReviveCause(heap, v, depth).1), v, depth)
    decreases MAX_CAUSE_DEPTH + 2 - depth
  {
    if depth <= MAX_CAUSE_DEPTH && v.Object? {
      var (revived, id) := ReviveCause(heap, v, depth);
      RevivedIsRebuilt(heap, full, Read(v, "cause"), depth + 1);
      assert full[id.value] == revived[id.value];
    }
  }

  /**
   What `fromJSON` builds from anything it accepts: link by link the fields that are there, `AppError` where the kind is
   no built-in one, a plain error where a cause has not all four fields, and nothing past the depth limit.
   */
  lemma AcceptedIsRebuilt(heap: Heap, v: Wire)
    requires FromJson(heap, v).1.Some?
    ensures var (revived, e) := FromJson(heap, v); heap <= revived && Rebuilt(revived, Ref(e.value), v, 0)
  {
    assert ReviveCause(heap, v, 0) == FromJson(heap, v);
    RevivedIsRebuilt(heap, FromJson(heap, v).0, v, 0);
  }

  /**
   An `AppError` serialised here and revived anywhere keeps its whole chain link by link, custom kinds falling back to
   `AppError`; it serialises to the very same thing exactly when every kind in the chain is a built-in one.
   */
  lemma RoundTripIffKindsAreBuiltIn(heap: Heap, e: Id, elsewhere: Heap)
    requires Closed(heap) && e < |heap| && heap[e].app.Some? && Closed(elsewhere)
    ensures var json := ToJson(heap, e);
            var (revived, id) := FromJson(elsewhere, Encode(json));
            && id.Some? && Closed(revived)
            && ToJson(revived, id.value) == Normalised(json)
            && (ToJson(revived, id.value) == json <==> KindsAreBuiltIn(json))
  {
    var json := ToJson(heap, e);
    LengthIsBounded(heap, Ref(e), {}, 0);
    EncodedFields(json);
    ReviveKeepsClosed(elsewhere, Encode(json), 0);
    RevivedSerializes(elsewhere, FromJson(elsewhere, Encode(json)).0, json, 0, {});
    UnchangedIffBuiltIn(json);
  }

  /** From `first` on, every object has a known kind, and causes that lie in the same stretch. */
  ghost predicate Registered(heap: Heap, first: nat) {
    forall i :: first <= i < |heap| ==>
      && (heap[i].app.Some? ==> heap[i].app.value.kind in BUILT_IN_KINDS)
      && (heap[i].cause.Ref? ==> heap[i].cause.id >= first)
  }

  lemma {:induction false} RevivedAreRegistered(heap: Heap, v: Wire, depth: nat, first: nat)
    requires Registered(heap, first) && first <= |heap|
    ensures Registered(ReviveCause(heap, v, depth).0, first)
    decreases MAX_CAUSE_DEPTH + 2 - depth
  {
    if depth <= MAX_CAUSE_DEPTH {
      RevivedAreRegistered(heap, Read(v, "cause"), depth + 1, first);
    }
  }

  lemma {:induction false} RegisteredSerializes(heap: Heap, t: Thrown, seen: set<Id>, depth: nat, first: nat)
    requires Closed(heap) && InHeap(heap, t) && Registered(heap, first) && (t.Ref? ==> t.id >= first)
    ensures var link := Serialize(heap, t, seen, depth);
            link.Some? ==> KindsAreBuiltIn(link.value)
    decreases MAX_CAUSE_DEPTH + 1 - depth
  {
    if depth <= MAX_CAUSE_DEPTH && t.Ref? && t.id !in seen {
      RegisteredSerializes(heap, heap[t.id].cause, seen + {t.id}, depth + 1, first);
    }
  }

  /** Whatever untrusted value `fromJSON` accepts, the error it builds survives every further round trip unchanged. */
  lemma AcceptedInputIsStable(heap: Heap, v: Wire, elsewhere: Heap)
    requires Closed(heap) && Closed(elsewhere) && LooksLikeAppError(v)
    ensures var (first, e) := FromJson(heap, v);
            && e.Some? && Closed(first)
            && var json := ToJson(first, e.value);
               var (second, f) := FromJson(elsewhere, Encode(json));
               f.Some? && Closed(second) && ToJson(second, f.value) == json
  {
    var (first, e) := FromJson(heap, v);
    ReviveKeepsClosed(heap, v, 0);
    RevivedAreRegistered(heap, v, 0, |heap|);
    RegisteredSerializes(first, Ref(e.value), {}, 0, |heap|);
    RoundTripIffKindsAreBuiltIn(first, e.value, elsewhere);
  }
}
