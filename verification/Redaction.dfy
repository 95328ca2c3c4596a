/** Log redaction over value graphs, cycles included (packages/logger/src/internal/redact.ts). */
module Redaction {
  import opened Options
  import opened JsValue

  type Id = nat

  /** `Ref` is a plain object or an array; every other value is a leaf. */
  datatype Item =
    | Nil(isNull: bool)
    | Primitive(prim: Prim)
    | BigInt(digits: string)
    | Function
    | Symbol
    | Date(iso: string)
    | Pattern(source: string)
    | ErrorObject(name: string, message: string)
    | MapOf(size: nat)
    | SetOf(size: nat)
    | Ref(id: Id)

  /** `ObjectNode` lists the own enumerable entries, in order. */
  datatype Node = ArrayNode(items: seq<Item>) | ObjectNode(fields: seq<(string, Item)>)

  type Heap = map<Id, Node>

  datatype Rendered =
    | Leaf(item: Item)
    | ErrorRecord(name: string, message: string)
    | Array(items: seq<Rendered>)
    | Object(fields: seq<(string, Rendered)>)

  /** `lower` is how one character is lower-cased; `None` for `maxDepth` is a limit that no depth exceeds. */
  datatype Settings = Settings(
    lower: char -> string,
    keyFragments: seq<string>,
    patterns: seq<string -> bool>,
    replacement: string,
    maxDepth: Option<int>)

  const DEFAULT_KEY_FRAGMENTS := [
    "password", "passwd", "pwd", "secret", "token", "apikey", "authorization", "cookie", "ssn", "socialsecurity",
    "creditcard", "cardnumber", "cvv", "cvc", "privatekey"]

  /** The settings a logger runs with, given what its options add to the defaults. */
  function WithDefaults(lower: char -> string, defaultPatterns: seq<string -> bool>, keyFragments: seq<string>,
                        patterns: seq<string -> bool>, replacement: Option<string>, maxDepth: Option<Option<int>>)
    : Settings
  {
    Settings(lower, DEFAULT_KEY_FRAGMENTS + keyFragments, defaultPatterns + patterns,
             if replacement.Some? then replacement.value else "[REDACTED]",
             if maxDepth.Some? then maxDepth.value else Some(20))
  }

  // ----- Sensitive keys -----

  predicate KeptChar(c: char) {
    'a' <= c <= 'z' || '0' <= c <= '9'
  }

  function Lower(lower: char -> string, text: string): string {
    if text == "" then "" else lower(text[0]) + Lower(lower, text[1..])
  }

  function Stripped(s: string): (r: string)
    ensures forall c :: c in r ==> KeptChar(c)
  {
    if s == "" then "" else (if KeptChar(s[0]) then [s[0]] else "") + Stripped(s[1..])
  }

  /** `String.includes`. */
  predicate Includes(s: string, part: string) {
    exists i :: 0 <= i <= |s| && Occurs(s, part, i)
  }

  predicate Occurs(s: string, part: string, i: nat) {
    i + |part| <= |s| && s[i..i + |part|] == part
  }

  predicate IsSensitiveKey(s: Settings, key: string) {
    exists i :: 0 <= i < |s.keyFragments| && Includes(Stripped(Lower(s.lower, key)), s.keyFragments[i])
  }

  predicate IsSecretShaped(text: string, patterns: seq<string -> bool>) {
    exists i :: 0 <= i < |patterns| && patterns[i](text)
  }

  // ----- Rendering -----

  predicate InHeap(heap: Heap, v: Item) {
    v.Ref? ==> v.id in heap
  }

  predicate ItemsInHeap(heap: Heap, items: seq<Item>) {
    forall i :: 0 <= i < |items| ==> InHeap(heap, items[i])
  }

  predicate FieldsInHeap(heap: Heap, fields: seq<(string, Item)>) {
    forall i :: 0 <= i < |fields| ==> InHeap(heap, fields[i].1)
  }

  predicate Closed(heap: Heap) {
    forall id :: id in heap ==>
      match heap[id]
      case ArrayNode(items) => ItemsInHeap(heap, items)
      case ObjectNode(fields) => FieldsInHeap(heap, fields)
  }

  function Str(text: string): Rendered {
    Leaf(Primitive(Text(text)))
  }

  function Decimal(n: nat): string {
    (if n < 10 then "" else Decimal(n / 10)) + ["0123456789"[n % 10]]
  }

  const CIRCULAR := Str("[Circular]")
  const TOO_DEEP := Str("[MaxDepthExceeded]")

  predicate Exceeds(s: Settings, depth: nat) {
    s.maxDepth.Some? && depth > s.maxDepth.value
  }

  function RenderLeaf(s: Settings, v: Item): Rendered
    requires !v.Ref?
  {
    match v
    case Nil(_) => Leaf(v)
    case Primitive(p) => if p.Text? && IsSecretShaped(p.text, s.patterns) then Str(s.replacement) else Leaf(v)
    case BigInt(digits) => Str(digits + "n")
    case Function => Str("[Function]")
    case Symbol => Str("[Symbol]")
    case Date(iso) => Str(iso)
    case Pattern(source) => Str(source)
    case ErrorObject(name, message) => ErrorRecord(name, message)
    case MapOf(size) => Str("[Map(" + Decimal(size) + ")]")
    case SetOf(size) => Str("[Set(" + Decimal(size) + ")]")
  }

  /** It ends on every finite graph, even with no depth limit: each object entered is one ancestor more. */
  function Redact(heap: Heap, s: Settings, v: Item, ancestors: set<Id>, depth: nat): Rendered
    requires Closed(heap) && InHeap(heap, v)
    decreases heap.Keys - ancestors, 0
  {
    if Exceeds(s, depth) then TOO_DEEP
    else if !v.Ref? then RenderLeaf(s, v)
    else if v.id in ancestors then CIRCULAR
    else
      assert v.id in heap.Keys - ancestors && v.id !in heap.Keys - (ancestors + {v.id});
      match heap[v.id]
      case ArrayNode(items) => Array(RedactItems(heap, s, items, ancestors + {v.id}, depth + 1))
      case ObjectNode(fields) => Object(RedactEntries(heap, s, fields, ancestors + {v.id}, depth + 1))
  }

  function RedactItems(heap: Heap, s: Settings, items: seq<Item>, ancestors: set<Id>, depth: nat): (r: seq<Rendered>)
    requires Closed(heap) && ItemsInHeap(heap, items)
    ensures |r| == |items|
    decreases heap.Keys - ancestors, |items|
  {
    if items == [] then []
    else [Redact(heap, s, items[0], ancestors, depth)] + RedactItems(heap, s, items[1..], ancestors, depth)
  }

  function RedactEntry(heap: Heap, s: Settings, field: (string, Item), ancestors: set<Id>, depth: nat)
    : (string, Rendered)
    requires Closed(heap) && InHeap(heap, field.1)
    decreases heap.Keys - ancestors, 1
  {
    (field.0, if IsSensitiveKey(s, field.0) then Str(s.replacement)
              else Redact(heap, s, field.1, ancestors, depth))
  }

  function RedactEntries(heap: Heap, s: Settings, fields: seq<(string, Item)>, ancestors: set<Id>, depth: nat)
    : (r: seq<(string, Rendered)>)
    requires Closed(heap) && FieldsInHeap(heap, fields)
    ensures |r| == |fields|
    decreases heap.Keys - ancestors, |fields| + 1
  {
    if fields == [] then []
    else [RedactEntry(heap, s, fields[0], ancestors, depth)] + RedactEntries(heap, s, fields[1..], ancestors, depth)
  }

  // ----- The walk as it runs -----

  class AncestorSet {
    var nodes: set<Id>

    constructor ()
      ensures nodes == {}
    {
      nodes := {};
    }
  }

  /** `ancestors` grows on the way down and is as it was on the way up. */
  method RedactValue(heap: Heap, s: Settings, v: Item, ancestors: AncestorSet, depth: nat) returns (r: Rendered)
    requires Closed(heap) && InHeap(heap, v)
    modifies ancestors
    ensures ancestors.nodes == old(ancestors.nodes)
    ensures r == Redact(heap, s, v, old(ancestors.nodes), depth)
    decreases heap.Keys - ancestors.nodes, 0
  {
    if Exceeds(s, depth) {
      return TOO_DEEP;
    }
    if !v.Ref? {
      return RenderLeaf(s, v);
    }
    if v.id in ancestors.nodes {
      return CIRCULAR;
    }
    assert v.id in heap.Keys - ancestors.nodes && v.id !in heap.Keys - (ancestors.nodes + {v.id});
    ghost var before := ancestors.nodes;
    ancestors.nodes := ancestors.nodes + {v.id};
    match heap[v.id] {
      case ArrayNode(items) =>
        var rendered := WalkItems(heap, s, items, ancestors, depth + 1);
        r := Array(rendered);
      case ObjectNode(fields) =>
        var rendered := WalkEntries(heap, s, fields, ancestors, depth + 1);
        r := Object(rendered);
    }
    ancestors.nodes := ancestors.nodes - {v.id};
    assert ancestors.nodes == before;
  }

  method WalkItems(heap: Heap, s: Settings, items: seq<Item>, ancestors: AncestorSet, depth: nat)
    returns (rendered: seq<Rendered>)
    requires Closed(heap) && ItemsInHeap(heap, items)
    modifies ancestors
    ensures ancestors.nodes == old(ancestors.nodes)
    ensures rendered == RedactItems(heap, s, items, old(ancestors.nodes), depth)
    decreases heap.Keys - ancestors.nodes, 1
  {
    rendered := [];
    ghost var path := ancestors.nodes;
    for i := 0 to |items|
      invariant ancestors.nodes == path
      invariant RedactItems(heap, s, items, path, depth) == rendered + RedactItems(heap, s, items[i..], path, depth)
    {
      var r := RedactValue(heap, s, items[i], ancestors, depth);
      assert items[i..][1..] == items[i + 1..];
      rendered := rendered + [r];
    }
  }

  method WalkEntries(heap: Heap, s: Settings, fields: seq<(string, Item)>, ancestors: AncestorSet, depth: nat)
    returns (rendered: seq<(string, Rendered)>)
    requires Closed(heap) && FieldsInHeap(heap, fields)
    modifies ancestors
    ensures ancestors.nodes == old(ancestors.nodes)
    ensures rendered == RedactEntries(heap, s, fields, old(ancestors.nodes), depth)
    decreases heap.Keys - ancestors.nodes, 2
  {
    rendered := [];
    ghost var path := ancestors.nodes;
    for i := 0 to |fields|
      invariant ancestors.nodes == path
      invariant RedactEntries(heap, s, fields, path, depth)
                == rendered + RedactEntries(heap, s, fields[i..], path, depth)
    {
      var entry := WalkEntry(heap, s, fields[i], ancestors, depth);
      assert fields[i..][1..] == fields[i + 1..];
      rendered := rendered + [entry];
    }
  }

  method WalkEntry(heap: Heap, s: Settings, field: (string, Item), ancestors: AncestorSet, depth: nat)
    returns (entry: (string, Rendered))
    requires Closed(heap) && InHeap(heap, field.1)
    modifies ancestors
    ensures ancestors.nodes == old(ancestors.nodes)
    ensures entry == RedactEntry(heap, s, field, old(ancestors.nodes), depth)
    decreases heap.Keys - ancestors.nodes, 1
  {
    if IsSensitiveKey(s, field.0) {
      return (field.0, Str(s.replacement));
    }
    var r := RedactValue(heap, s, field.1, ancestors, depth);
    return (field.0, r);
  }

  /** `redactFields` with redaction on: the walk starts at the root with no ancestors. */
  method RedactFields(heap: Heap, s: Settings, fields: Item) returns (r: Rendered)
    requires Closed(heap) && InHeap(heap, fields)
    ensures r == Redact(heap, s, fields, {}, 0)
  {
    var ancestors := new AncestorSet();
    r := RedactValue(heap, s, fields, ancestors, 0);
  }
}
