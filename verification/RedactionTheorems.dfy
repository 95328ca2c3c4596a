/** What redaction guarantees about its output (packages/logger/src/internal/redact.ts). */
module RedactionTheorems {
  import opened Options
  import opened Redaction

  // ----- Non-interference -----

  /** `twin` names, for each object of the first graph, the one that plays its part in the second. */
  type Twins = map<Id, Id>

  /** Equal leaves, two secret-shaped strings, or two objects that are twins. */
  predicate Alike(s: Settings, twin: Twins, v: Item, w: Item) {
    if v.Ref? then w.Ref? && v.id in twin && twin[v.id] == w.id
    else v == w || (IsSecret(s, v) && IsSecret(s, w))
  }

  predicate IsSecret(s: Settings, v: Item) {
    v.Primitive? && v.prim.Text? && IsSecretShaped(v.prim.text, s.patterns)
  }

  predicate ItemsAlike(s: Settings, twin: Twins, vs: seq<Item>, ws: seq<Item>) {
    |vs| == |ws| && forall i :: 0 <= i < |vs| ==> Alike(s, twin, vs[i], ws[i])
  }

  /** The same keys in the same order; what lies under a sensitive key does not matter. */
  predicate FieldsAlike(s: Settings, twin: Twins, fs: seq<(string, Item)>, gs: seq<(string, Item)>) {
    |fs| == |gs| && forall i :: 0 <= i < |fs| ==> FieldAlike(s, twin, fs[i], gs[i])
  }

  predicate FieldAlike(s: Settings, twin: Twins, f: (string, Item), g: (string, Item)) {
    f.0 == g.0 && (IsSensitiveKey(s, f.0) || Alike(s, twin, f.1, g.1))
  }

  predicate NodesAlike(s: Settings, twin: Twins, n: Node, m: Node) {
    if n.ArrayNode? then m.ArrayNode? && ItemsAlike(s, twin, n.items, m.items)
    else m.ObjectNode? && FieldsAlike(s, twin, n.fields, m.fields)
  }

  ghost predicate GraphsAlike(s: Settings, twin: Twins, h: Heap, k: Heap) {
    && (forall id :: id in twin ==> id in h && twin[id] in k && NodesAlike(s, twin, h[id], k[twin[id]]))
    && (forall a, b :: a in twin && b in twin && twin[a] == twin[b] ==> a == b)
  }

  ghost predicate AncestorsAlike(twin: Twins, a: set<Id>, b: set<Id>) {
    forall id :: id in twin ==> (id in a <==> twin[id] in b)
  }

  lemma {:induction false} SameRendering(h: Heap, k: Heap, s: Settings, twin: Twins, v: Item, w: Item,
                                         a: set<Id>, b: set<Id>, depth: nat)
    requires Closed(h) && InHeap(h, v) && Closed(k) && InHeap(k, w)
    requires GraphsAlike(s, twin, h, k) && Alike(s, twin, v, w) && AncestorsAlike(twin, a, b)
    ensures Redact(h, s, v, a, depth) == Redact(k, s, w, b, depth)
    decreases h.Keys - a, 0
  {
    if v.Ref? && v.id !in a && !Exceeds(s, depth) {
      assert v.id in h.Keys - a && v.id !in h.Keys - (a + {v.id});
      assert AncestorsAlike(twin, a + {v.id}, b + {w.id});
      assert NodesAlike(s, twin, h[v.id], k[w.id]);
      if h[v.id].ArrayNode? {
        SameItems(h, k, s, twin, h[v.id].items, k[w.id].items, a + {v.id}, b + {w.id}, depth + 1);
      } else {
        SameEntries(h, k, s, twin, h[v.id].fields, k[w.id].fields, a + {v.id}, b + {w.id}, depth + 1);
      }
    }
  }

  lemma {:induction false} SameItems(h: Heap, k: Heap, s: Settings, twin: Twins, vs: seq<Item>, ws: seq<Item>,
                                     a: set<Id>, b: set<Id>, depth: nat)
    requires Closed(h) && ItemsInHeap(h, vs) && Closed(k) && ItemsInHeap(k, ws)
    requires GraphsAlike(s, twin, h, k) && ItemsAlike(s, twin, vs, ws) && AncestorsAlike(twin, a, b)
    ensures RedactItems(h, s, vs, a, depth) == RedactItems(k, s, ws, b, depth)
    decreases h.Keys - a, |vs|
  {
    if vs != [] {
      SameRendering(h, k, s, twin, vs[0], ws[0], a, b, depth);
      SameItems(h, k, s, twin, vs[1..], ws[1..], a, b, depth);
    }
  }

  lemma {:induction false} SameEntries(h: Heap, k: Heap, s: Settings, twin: Twins, fs: seq<(string, Item)>,
                                       gs: seq<(string, Item)>, a: set<Id>, b: set<Id>, depth: nat)
    requires Closed(h) && FieldsInHeap(h, fs) && Closed(k) && FieldsInHeap(k, gs)
    requires GraphsAlike(s, twin, h, k) && FieldsAlike(s, twin, fs, gs) && AncestorsAlike(twin, a, b)
    ensures RedactEntries(h, s, fs, a, depth) == RedactEntries(k, s, gs, b, depth)
    decreases h.Keys - a, |fs| + 1
  {
    if fs != [] {
      assert FieldAlike(s, twin, fs[0], gs[0]);
      if !IsSensitiveKey(s, fs[0].0) {
        SameRendering(h, k, s, twin, fs[0].1, gs[0].1, a, b, depth);
      }
      SameEntries(h, k, s, twin, fs[1..], gs[1..], a, b, depth);
    }
  }

  /**
   Two inputs, cyclic or not, that differ only in what lies under sensitive keys and in which secret-shaped string
   stands in a position are logged alike.
   */
  lemma SecretsDoNotInterfere(h: Heap, k: Heap, s: Settings, twin: Twins, v: Item, w: Item)
    requires Closed(h) && InHeap(h, v) && Closed(k) && InHeap(k, w)
    requires GraphsAlike(s, twin, h, k) && Alike(s, twin, v, w)
    ensures Redact(h, s, v, {}, 0) == Redact(k, s, w, {}, 0)
  {
    SameRendering(h, k, s, twin, v, w, {}, {}, 0);
  }

  // ----- What stands at each path -----

  function Children(n: Node): seq<Item> {
    if n.ArrayNode? then n.items else seq(|n.fields|, i requires 0 <= i < |n.fields| => n.fields[i].1)
  }

  predicate Hidden(s: Settings, n: Node, i: nat) {
    n.ObjectNode? && i < |n.fields| && IsSensitiveKey(s, n.fields[i].0)
  }

  /** `path` leads from `v` through children, none of them under a sensitive key, entering no object twice. */
  ghost predicate Leads(heap: Heap, s: Settings, v: Item, path: seq<nat>, ancestors: set<Id>)
    requires Closed(heap) && InHeap(heap, v)
    decreases |path|
  {
    path == [] ||
    (&& v.Ref? && v.id !in ancestors
     && path[0] < |Children(heap[v.id])| && !Hidden(s, heap[v.id], path[0])
     && Leads(heap, s, Children(heap[v.id])[path[0]], path[1..], ancestors + {v.id}))
  }

  /** Where `path` ends. */
  ghost function End(heap: Heap, s: Settings, v: Item, path: seq<nat>, ancestors: set<Id>): (w: Item)
    requires Closed(heap) && InHeap(heap, v) && Leads(heap, s, v, path, ancestors)
    ensures InHeap(heap, w)
    decreases |path|
  {
    if path == [] then v else End(heap, s, Children(heap[v.id])[path[0]], path[1..], ancestors + {v.id})
  }

  /** The objects entered on the way. */
  ghost function Entered(heap: Heap, s: Settings, v: Item, path: seq<nat>, ancestors: set<Id>): set<Id>
    requires Closed(heap) && InHeap(heap, v) && Leads(heap, s, v, path, ancestors)
    decreases |path|
  {
    if path == [] then {}
    else {v.id} + Entered(heap, s, Children(heap[v.id])[path[0]], path[1..], ancestors + {v.id})
  }

  /** What the output holds at `path`. */
  function At(r: Rendered, path: seq<nat>): Option<Rendered>
    decreases |path|
  {
    if path == [] then Some(r)
    else if r.Array? && path[0] < |r.items| then At(r.items[path[0]], path[1..])
    else if r.Object? && path[0] < |r.fields| then At(r.fields[path[0]].1, path[1..])
    else None
  }

  lemma {:induction false} ItemAt(heap: Heap, s: Settings, items: seq<Item>, ancestors: set<Id>, depth: nat, i: nat)
    requires Closed(heap) && ItemsInHeap(heap, items) && i < |items|
    ensures RedactItems(heap, s, items, ancestors, depth)[i] == Redact(heap, s, items[i], ancestors, depth)
  {
    if i > 0 {
      ItemAt(heap, s, items[1..], ancestors, depth, i - 1);
    }
  }

  lemma {:induction false} EntryAt(heap: Heap, s: Settings, fields: seq<(string, Item)>, ancestors: set<Id>, depth: nat,
                                   i: nat)
    requires Closed(heap) && FieldsInHeap(heap, fields) && i < |fields|
    ensures RedactEntries(heap, s, fields, ancestors, depth)[i] == RedactEntry(heap, s, fields[i], ancestors, depth)
  {
    if i > 0 {
      EntryAt(heap, s, fields[1..], ancestors, depth, i - 1);
    }
  }

  /** The rendering of child `i` of an object that is entered. */
  lemma ChildAt(heap: Heap, s: Settings, v: Item, ancestors: set<Id>, depth: nat, i: nat)
    requires Closed(heap) && InHeap(heap, v) && v.Ref? && v.id !in ancestors && !Exceeds(s, depth)
    requires i < |Children(heap[v.id])|
    ensures var r := Redact(heap, s, v, ancestors, depth);
            && At(r, [i]).Some?
            && At(r, [i]).value == if Hidden(s, heap[v.id], i) then Str(s.replacement)
                                   else Redact(heap, s, Children(heap[v.id])[i], ancestors + {v.id}, depth + 1)
  {
    var node := heap[v.id];
    if node.ArrayNode? {
      ItemAt(heap, s, node.items, ancestors + {v.id}, depth + 1, i);
    } else {
      EntryAt(heap, s, node.fields, ancestors + {v.id}, depth + 1, i);
    }
  }

  lemma AtSplit(r: Rendered, path: seq<nat>)
    requires path != [] && At(r, [path[0]]).Some?
    ensures At(r, path) == At(At(r, [path[0]]).value, path[1..])
  {
  }

  lemma {:induction false} PathIsRendered(
    heap: Heap, s: Settings, v: Item, path: seq<nat>, ancestors: set<Id>, depth: nat)
    requires Closed(heap) && InHeap(heap, v) && Leads(heap, s, v, path, ancestors)
    requires path != [] ==> !Exceeds(s, depth + |path| - 1)
    ensures At(Redact(heap, s, v, ancestors, depth), path)
            == Some(Redact(heap, s, End(heap, s, v, path, ancestors),
                           ancestors + Entered(heap, s, v, path, ancestors), depth + |path|))
    decreases |path|
  {
    if path == [] {
      assert ancestors + {} == ancestors;
    } else {
      var child := Children(heap[v.id])[path[0]];
      ChildAt(heap, s, v, ancestors, depth, path[0]);
      AtSplit(Redact(heap, s, v, ancestors, depth), path);
      PathIsRendered(heap, s, child, path[1..], ancestors + {v.id}, depth + 1);
      var entered := Entered(heap, s, child, path[1..], ancestors + {v.id});
      assert ancestors + ({v.id} + entered) == ancestors + {v.id} + entered;
    }
  }

  lemma PathFromTop(heap: Heap, s: Settings, v: Item, path: seq<nat>)
    requires Closed(heap) && InHeap(heap, v) && Leads(heap, s, v, path, {})
    requires path != [] ==> !Exceeds(s, |path| - 1)
    ensures At(Redact(heap, s, v, {}, 0), path)
            == Some(Redact(heap, s, End(heap, s, v, path, {}), Entered(heap, s, v, path, {}), |path|))
  {
    PathIsRendered(heap, s, v, path, {}, 0);
    assert {} + Entered(heap, s, v, path, {}) == Entered(heap, s, v, path, {});
  }

  /** How one item is rendered below the depth limit. */
  ghost predicate Mirrors(heap: Heap, s: Settings, w: Item, entered: set<Id>, r: Rendered)
    requires Closed(heap) && InHeap(heap, w)
  {
    && (w.Ref? ==> (r == CIRCULAR <==> w.id in entered))
    && (w.Ref? && r != CIRCULAR ==>
          if heap[w.id].ArrayNode? then r.Array? && |r.items| == |heap[w.id].items|
          else r.Object? && Keys(r.fields) == Keys(heap[w.id].fields))
    && (w.Nil? || w.Primitive? ==> r == if IsSecret(s, w) then Str(s.replacement) else Leaf(w))
  }

  lemma MirroredHere(heap: Heap, s: Settings, w: Item, entered: set<Id>, depth: nat)
    requires Closed(heap) && InHeap(heap, w) && !Exceeds(s, depth)
    ensures Mirrors(heap, s, w, entered, Redact(heap, s, w, entered, depth))
  {
    if w.Ref? && heap[w.id].ObjectNode? && w.id !in entered {
      EntriesKeepKeys(heap, s, heap[w.id].fields, entered + {w.id}, depth + 1);
    }
  }

  /**
   Below the depth limit, a path that enters no object twice and meets no sensitive key leads to: `[Circular]` exactly
   when it ends at an object it entered; otherwise the same kind of container with the same keys, or the leaf itself
   unless it is secret-shaped.
   */
  lemma OutputMirrorsInput(heap: Heap, s: Settings, v: Item, path: seq<nat>)
    requires Closed(heap) && InHeap(heap, v) && Leads(heap, s, v, path, {}) && !Exceeds(s, |path|)
    ensures var end, r := End(heap, s, v, path, {}), At(Redact(heap, s, v, {}, 0), path);
            r.Some? && Mirrors(heap, s, end, Entered(heap, s, v, path, {}), r.value)
  {
    PathFromTop(heap, s, v, path);
    MirroredHere(heap, s, End(heap, s, v, path, {}), Entered(heap, s, v, path, {}), |path|);
  }

  function Keys<T>(fields: seq<(string, T)>): seq<string> {
    seq(|fields|, i requires 0 <= i < |fields| => fields[i].0)
  }

  lemma EntriesKeepKeys(heap: Heap, s: Settings, fields: seq<(string, Item)>, ancestors: set<Id>, depth: nat)
    requires Closed(heap) && FieldsInHeap(heap, fields)
    ensures Keys(RedactEntries(heap, s, fields, ancestors, depth)) == Keys(fields)
  {
    forall i | 0 <= i < |fields|
      ensures RedactEntries(heap, s, fields, ancestors, depth)[i].0 == fields[i].0
    {
      EntryAt(heap, s, fields, ancestors, depth, i);
    }
  }

  lemma HiddenHere(heap: Heap, s: Settings, w: Item, entered: set<Id>, depth: nat, i: nat)
    requires Closed(heap) && InHeap(heap, w) && !Exceeds(s, depth)
    requires w.Ref? && w.id !in entered && Hidden(s, heap[w.id], i)
    ensures At(Redact(heap, s, w, entered, depth), [i]) == Some(Str(s.replacement))
  {
    ChildAt(heap, s, w, entered, depth, i);
  }

  /** Under a sensitive key stands the replacement, however deep the key is. */
  lemma SensitiveFieldsAreReplaced(heap: Heap, s: Settings, v: Item, path: seq<nat>, i: nat)
    requires Closed(heap) && InHeap(heap, v) && Leads(heap, s, v, path, {}) && !Exceeds(s, |path|)
    requires var end := End(heap, s, v, path, {});
             end.Ref? && end.id !in Entered(heap, s, v, path, {}) && Hidden(s, heap[end.id], i)
    ensures At(Redact(heap, s, v, {}, 0), path + [i]) == Some(Str(s.replacement))
  {
    PathFromTop(heap, s, v, path);
    HiddenHere(heap, s, End(heap, s, v, path, {}), Entered(heap, s, v, path, {}), |path|, i);
    AtAppend(Redact(heap, s, v, {}, 0), path, i);
  }

  lemma {:induction false} AtAppend(r: Rendered, path: seq<nat>, i: nat)
    requires At(r, path).Some?
    ensures At(r, path + [i]) == At(At(r, path).value, [i])
    decreases |path|
  {
    if path == [] {
      assert path + [i] == [i];
    } else {
      assert (path + [i])[1..] == path[1..] + [i];
      AtAppend(if r.Array? then r.items[path[0]] else r.fields[path[0]].1, path[1..], i);
    }
  }

  /** Whatever stands one level past the limit is replaced by the depth marker. */
  lemma LimitIsMarked(heap: Heap, s: Settings, v: Item, path: seq<nat>)
    requires Closed(heap) && InHeap(heap, v) && Leads(heap, s, v, path, {})
    requires s.maxDepth.Some? && s.maxDepth.value >= 0 && |path| == s.maxDepth.value + 1
    ensures At(Redact(heap, s, v, {}, 0), path) == Some(TOO_DEEP)
  {
    PathIsRendered(heap, s, v, path, {}, 0);
  }

  // ----- Secrets in the output -----

  predicate SecretText(s: Settings, text: string) {
    IsSecretShaped(text, s.patterns)
  }

  /** Some string value in `r` is secret-shaped. */
  ghost predicate HasSecret(s: Settings, r: Rendered) {
    match r
    case Leaf(item) => IsSecret(s, item)
    case ErrorRecord(name, message) => SecretText(s, name) || SecretText(s, message)
    case Array(items) => exists i :: 0 <= i < |items| && HasSecret(s, items[i])
    case Object(fields) => exists i :: 0 <= i < |fields| && HasSecret(s, fields[i].1)
  }

  /** The texts a leaf is printed as without their being matched against the patterns. */
  function Printed(v: Item): seq<string> {
    match v
    case BigInt(digits) => [digits + "n"]
    case Function => ["[Function]"]
    case Symbol => ["[Symbol]"]
    case Date(iso) => [iso]
    case Pattern(source) => [source]
    case ErrorObject(name, message) => [name, message]
    case MapOf(size) => ["[Map(" + Decimal(size) + ")]"]
    case SetOf(size) => ["[Set(" + Decimal(size) + ")]"]
    case _ => []
  }

  /** The number that decimal digits stand for. */
  ghost function Read(digits: string): int {
    if digits == "" then 0 else 10 * Read(digits[..|digits| - 1]) + (digits[|digits| - 1] as int - '0' as int)
  }

  lemma {:induction false} SizesReadBack(n: nat)
    ensures var text := Decimal(n);
            && Read(text) == n && text != "" && (text[0] == '0' ==> text == "0")
            && forall i :: 0 <= i < |text| ==> '0' <= text[i] <= '9'
  {
    var digit := "0123456789"[n % 10];
    assert digit as int == '0' as int + n % 10;
    if n >= 10 {
      SizesReadBack(n / 10);
      assert Decimal(n)[..|Decimal(n)| - 1] == Decimal(n / 10);
    } else {
      assert Decimal(n) == [digit];
    }
  }

  /** Of these values nothing comes out but their kind, and their size in decimal digits or their digits. */
  lemma SummariesAreRendered(heap: Heap, s: Settings, v: Item, ancestors: set<Id>, depth: nat)
    returns (text: string, size: string)
    requires Closed(heap) && InHeap(heap, v) && !Exceeds(s, depth)
    requires v.BigInt? || v.Function? || v.Symbol? || v.MapOf? || v.SetOf?
    ensures Redact(heap, s, v, ancestors, depth) == Str(text)
    ensures match v
            case BigInt(digits) => text == digits + "n"
            case Function => text == "[Function]"
            case Symbol => text == "[Symbol]"
            case MapOf(n) => text == "[Map(" + size + ")]" && size != "" && Read(size) == n
            case SetOf(n) => text == "[Set(" + size + ")]" && size != "" && Read(size) == n
            case _ => false
  {
    text, size := RenderLeaf(s, v).item.prim.text, "";
    if v.MapOf? || v.SetOf? {
      SizesReadBack(v.size);
      size := Decimal(v.size);
    }
  }

  ghost predicate Leaky(s: Settings, v: Item) {
    exists i :: 0 <= i < |Printed(v)| && SecretText(s, Printed(v)[i])
  }

  /** What redaction itself writes is not secret-shaped. */
  predicate CleanMarkers(s: Settings) {
    !SecretText(s, s.replacement) && !SecretText(s, "[Circular]") && !SecretText(s, "[MaxDepthExceeded]")
  }

  lemma LeafSecretIff(s: Settings, v: Item)
    requires CleanMarkers(s) && !v.Ref?
    ensures HasSecret(s, RenderLeaf(s, v)) <==> Leaky(s, v)
  {
    if Printed(v) != [] {
      assert SecretText(s, Printed(v)[0]) ==> Leaky(s, v);
    }
    if v.ErrorObject? {
      assert Printed(v)[1] == v.message;
    }
  }

  /** A leak: a path that redaction follows to a leaf it prints without matching. */
  ghost predicate LeaksAlong(heap: Heap, s: Settings, v: Item, path: seq<nat>, ancestors: set<Id>, depth: nat)
    requires Closed(heap) && InHeap(heap, v)
  {
    Leads(heap, s, v, path, ancestors) && !Exceeds(s, depth + |path|) && Leaky(s, End(heap, s, v, path, ancestors))
  }

  lemma {:induction false} SecretInside(s: Settings, r: Rendered, path: seq<nat>)
    requires At(r, path).Some? && HasSecret(s, At(r, path).value)
    ensures HasSecret(s, r)
    decreases |path|
  {
    if path != [] {
      SecretInside(s, if r.Array? then r.items[path[0]] else r.fields[path[0]].1, path[1..]);
    }
  }

  lemma LeakShows(heap: Heap, s: Settings, v: Item, path: seq<nat>)
    requires Closed(heap) && InHeap(heap, v) && CleanMarkers(s) && LeaksAlong(heap, s, v, path, {}, 0)
    ensures HasSecret(s, Redact(heap, s, v, {}, 0))
  {
    PathIsRendered(heap, s, v, path, {}, 0);
    LeafSecretIff(s, End(heap, s, v, path, {}));
    SecretInside(s, Redact(heap, s, v, {}, 0), path);
  }

  /** Where a container's rendering holds a secret: in a child that is not hidden. */
  lemma SecretChild(heap: Heap, s: Settings, v: Item, ancestors: set<Id>, depth: nat) returns (i: nat)
    requires Closed(heap) && InHeap(heap, v) && v.Ref? && v.id !in ancestors && !Exceeds(s, depth) && CleanMarkers(s)
    requires HasSecret(s, Redact(heap, s, v, ancestors, depth))
    ensures i < |Children(heap[v.id])| && !Hidden(s, heap[v.id], i)
    ensures HasSecret(s, Redact(heap, s, Children(heap[v.id])[i], ancestors + {v.id}, depth + 1))
  {
    var r := Redact(heap, s, v, ancestors, depth);
    i :| if r.Array? then i < |r.items| && HasSecret(s, r.items[i]) else i < |r.fields| && HasSecret(s, r.fields[i].1);
    ChildAt(heap, s, v, ancestors, depth, i);
    assert [i][1..] == [];
  }

  /** Every secret in the output has leaked along some path. */
  lemma {:induction false} SecretHasLeaked(heap: Heap, s: Settings, v: Item, ancestors: set<Id>, depth: nat)
    returns (path: seq<nat>)
    requires Closed(heap) && InHeap(heap, v) && CleanMarkers(s)
    requires HasSecret(s, Redact(heap, s, v, ancestors, depth))
    ensures LeaksAlong(heap, s, v, path, ancestors, depth)
    decreases heap.Keys - ancestors
  {
    if !v.Ref? {
      path := [];
      LeafSecretIff(s, v);
    } else {
      var i := SecretChild(heap, s, v, ancestors, depth);
      assert v.id in heap.Keys - ancestors && v.id !in heap.Keys - (ancestors + {v.id});
      var rest := SecretHasLeaked(heap, s, Children(heap[v.id])[i], ancestors + {v.id}, depth + 1);
      path := [i] + rest;
      assert path[1..] == rest;
    }
  }

  /**
   No string value in the output is secret-shaped, if and only if redaction reaches no leaf that it prints unmatched
   with a secret-shaped text: an error's name or message, a pattern's source, a date, a big integer.
   */
  lemma NothingSecretIff(heap: Heap, s: Settings, v: Item)
    requires Closed(heap) && InHeap(heap, v) && CleanMarkers(s)
    ensures !HasSecret(s, Redact(heap, s, v, {}, 0)) <==> forall path :: !LeaksAlong(heap, s, v, path, {}, 0)
  {
    if HasSecret(s, Redact(heap, s, v, {}, 0)) {
      var path := SecretHasLeaked(heap, s, v, {}, 0);
    }
    if path :| LeaksAlong(heap, s, v, path, {}, 0) {
      LeakShows(heap, s, v, path);
    }
  }

  /** Such a log entry: an error whose message is secret-shaped, under a key that is not sensitive. */
  lemma ErrorMessageLeaks(s: Settings, key: string, message: string)
    requires CleanMarkers(s) && SecretText(s, message) && !IsSensitiveKey(s, key) && !Exceeds(s, 1)
    ensures var heap := map[0 := ObjectNode([(key, ErrorObject("Error", message))])];
            Closed(heap) && HasSecret(s, Redact(heap, s, Ref(0), {}, 0))
  {
    var heap: Heap := map[0 := ObjectNode([(key, ErrorObject("Error", message))])];
    var error := ErrorObject("Error", message);
    assert Children(heap[0]) == [error];
    assert [0][1..] == [];
    assert End(heap, s, Ref(0), [0], {}) == error;
    assert Printed(error)[1] == message;
    LeakShows(heap, s, Ref(0), [0]);
  }
}
