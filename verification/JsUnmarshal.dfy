/**
  Unmarshaling: a tree becomes fresh objects in an engine, and a value that was marshaled and
  unmarshaled is a separate copy of what the original unfolds to.
 */
module JsUnmarshal {
  import opened Basics
  import opened JsMarshal
  import opened CStrings

  // ---------------------------------------------------------------------------------------------
  // What survives the trip
  // ---------------------------------------------------------------------------------------------

  /** The length an array gets when only its readable elements are set. */
  function SetLength<T>(es: seq<Option<T>>): (n: nat)
    ensures n <= |es|
    ensures n > 0 ==> es[n - 1].Some?
    ensures forall i | n <= i < |es| :: es[i].None?
  {
    if es == [] then 0
    else if es[|es| - 1].Some? then |es|
    else SetLength(es[..|es| - 1])
  }

  /** The tree that the restored value unfolds to. */
  function Restored(t: Tree): Tree
    decreases t
  {
    match t
    case StringTree(s) => StringTree(CString(s))
    case ObjectTree(ts) => ObjectTree(map k | k in ts :: Restored(ts[k]))
    case ArrayTree(ts) =>
      ArrayTree(seq(SetLength(ts), i requires 0 <= i < SetLength(ts) =>
        if ts[i].Some? then Some(Restored(ts[i].value)) else None))
    case _ => t
  }

  /**
    What is lost on the way, and no more: a string from its first NUL on, and the unreadable elements
    behind the last readable one of an array; all other parts are restored in their places.
   */
  lemma RestoredMeans(t: Tree)
    ensures t.StringTree? ==>
              exists r :: Restored(t) == StringTree(r) && r <= t.s && '\0' !in r
                          && (r == t.s || t.s[|r|] == '\0')
    ensures t.ObjectTree? ==>
              && Restored(t).ObjectTree? && Restored(t).properties.Keys == t.properties.Keys
              && forall k | k in t.properties :: Restored(t).properties[k] == Restored(t.properties[k])
    ensures t.ArrayTree? ==>
              && Restored(t).ArrayTree?
              && var es, rs := t.elements, Restored(t).elements;
                 && |rs| <= |es| && (rs != [] ==> rs[|rs| - 1].Some?) && (forall i | |rs| <= i < |es| :: es[i].None?)
                 && forall i | 0 <= i < |rs| ::
                      rs[i] == if es[i].Some? then Some(Restored(es[i].value)) else None
    ensures !t.StringTree? && !t.ObjectTree? && !t.ArrayTree? ==> Restored(t) == t
  {
    if t.StringTree? {
      var e := CharsAtShape(t.s, 0);
      assert t.s[0..e] == t.s[..e];
    }
  }

  /** No string holds a NUL and no array ends in an unreadable element. */
  predicate Transferable(t: Tree)
    decreases t
  {
    match t
    case StringTree(s) => '\0' !in s
    case ObjectTree(ts) => forall k | k in ts :: Transferable(ts[k])
    case ArrayTree(ts) =>
      && (ts != [] ==> ts[|ts| - 1].Some?)
      && forall i | 0 <= i < |ts| :: ts[i].Some? ==> Transferable(ts[i].value)
    case _ => true
  }

  /** The restored tree is the marshaled one exactly when that is transferable. */
  lemma {:induction false} RestoredIsSame(t: Tree)
    ensures Restored(t) == t <==> Transferable(t)
    decreases t
  {
    match t
    case StringTree(s) => CStringIsWhole(s);
    case ObjectTree(ts) =>
      forall k | k in ts ensures Restored(ts[k]) == ts[k] <==> Transferable(ts[k]) {
        RestoredIsSame(ts[k]);
      }
      var rs := Restored(t).properties;
      assert rs.Keys == ts.Keys && forall k | k in ts :: rs[k] == Restored(ts[k]);
      assert rs == ts <==> forall k | k in ts :: rs[k] == ts[k];
    case ArrayTree(ts) =>
      forall i | 0 <= i < |ts| && ts[i].Some?
        ensures Restored(ts[i].value) == ts[i].value <==> Transferable(ts[i].value)
      {
        RestoredIsSame(ts[i].value);
      }
      var rs := Restored(t).elements;
      if Transferable(t) {
        assert SetLength(ts) == |ts|;
        assert rs == ts;
      }
      if rs == ts {
        forall i | 0 <= i < |ts| && ts[i].Some? ensures Transferable(ts[i].value) {
          assert rs[i] == Some(Restored(ts[i].value));
        }
      }
    case _ =>
  }

  // ---------------------------------------------------------------------------------------------
  // Separate copies
  // ---------------------------------------------------------------------------------------------

  /** The nodes met when v is unfolded to t. */
  ghost function Nodes(h: Heap, v: Value, t: Tree): set<nat>
    requires Unfolds(h, v, t)
    decreases t
  {
    match t
    case ModuleTree(_) => {v.id}
    case ObjectTree(ts) => {v.id} + set k, x | k in ts && x in Nodes(h, h[v.id].properties[k].value, ts[k]) :: x
    case ArrayTree(ts) =>
      {v.id} + set i, x | 0 <= i < |ts| && ts[i].Some? && x in Nodes(h, h[v.id].elements[i].value, ts[i].value) :: x
    case _ => {}
  }

  /** No node is met twice. */
  ghost predicate Separate(h: Heap, v: Value, t: Tree)
    requires Unfolds(h, v, t)
    decreases t
  {
    match t
    case ObjectTree(ts) =>
      var ps := h[v.id].properties;
      && (forall k | k in ts :: Separate(h, ps[k].value, ts[k]) && v.id !in Nodes(h, ps[k].value, ts[k]))
      && forall k, k' | k in ts && k' in ts && k != k' ::
           Nodes(h, ps[k].value, ts[k]) !! Nodes(h, ps[k'].value, ts[k'])
    case ArrayTree(ts) =>
      var es := h[v.id].elements;
      && (forall i | 0 <= i < |ts| && ts[i].Some? ::
            Separate(h, es[i].value, ts[i].value) && v.id !in Nodes(h, es[i].value, ts[i].value))
      && forall i, j | 0 <= i < j < |ts| && ts[i].Some? && ts[j].Some? ::
           Nodes(h, es[i].value, ts[i].value) !! Nodes(h, es[j].value, ts[j].value)
    case _ => true
  }

  /** v is a separate copy of t whose nodes all have identities from lo up to hi. */
  ghost predicate IsCopy(h: Heap, v: Value, t: Tree, lo: nat, hi: nat) {
    && Unfolds(h, v, t)
    && Separate(h, v, t)
    && forall x | x in Nodes(h, v, t) :: lo <= x < hi
  }

  /** A value is unaffected by changes to nodes it does not meet. */
  lemma {:induction false} UnfoldsFrame(h: Heap, h': Heap, v: Value, t: Tree)
    requires Unfolds(h, v, t)
    requires forall x | x in Nodes(h, v, t) :: x in h && x in h' && h'[x] == h[x]
    ensures Unfolds(h', v, t)
    ensures Nodes(h', v, t) == Nodes(h, v, t)
    decreases t
  {
    match t
    case ModuleTree(_) => assert v.id in Nodes(h, v, t);
    case ObjectTree(ts) =>
      assert v.id in Nodes(h, v, t);
      var ps := h[v.id].properties;
      forall k | k in ts
        ensures Unfolds(h', ps[k].value, ts[k]) && Nodes(h', ps[k].value, ts[k]) == Nodes(h, ps[k].value, ts[k])
      {
        assert Nodes(h, ps[k].value, ts[k]) <= Nodes(h, v, t);
        UnfoldsFrame(h, h', ps[k].value, ts[k]);
      }
      assert Nodes(h', v, t) == Nodes(h, v, t);
    case ArrayTree(ts) =>
      assert v.id in Nodes(h, v, t);
      var es := h[v.id].elements;
      forall i | 0 <= i < |ts| && ts[i].Some?
        ensures Unfolds(h', es[i].value, ts[i].value)
        ensures Nodes(h', es[i].value, ts[i].value) == Nodes(h, es[i].value, ts[i].value)
      {
        assert Nodes(h, es[i].value, ts[i].value) <= Nodes(h, v, t);
        UnfoldsFrame(h, h', es[i].value, ts[i].value);
      }
      assert Nodes(h', v, t) == Nodes(h, v, t);
    case _ =>
  }

  lemma {:induction false} SeparateFrame(h: Heap, h': Heap, v: Value, t: Tree)
    requires Unfolds(h, v, t) && Separate(h, v, t)
    requires forall x | x in Nodes(h, v, t) :: x in h && x in h' && h'[x] == h[x]
    ensures Unfolds(h', v, t) && Separate(h', v, t)
    decreases t
  {
    UnfoldsFrame(h, h', v, t);
    match t
    case ObjectTree(ts) =>
      assert v.id in Nodes(h, v, t);
      var ps := h[v.id].properties;
      forall k | k in ts
        ensures Separate(h', ps[k].value, ts[k]) && Nodes(h', ps[k].value, ts[k]) == Nodes(h, ps[k].value, ts[k])
      {
        assert Nodes(h, ps[k].value, ts[k]) <= Nodes(h, v, t);
        SeparateFrame(h, h', ps[k].value, ts[k]);
        UnfoldsFrame(h, h', ps[k].value, ts[k]);
      }
    case ArrayTree(ts) =>
      assert v.id in Nodes(h, v, t);
      var es := h[v.id].elements;
      forall i | 0 <= i < |ts| && ts[i].Some?
        ensures Separate(h', es[i].value, ts[i].value)
        ensures Nodes(h', es[i].value, ts[i].value) == Nodes(h, es[i].value, ts[i].value)
      {
        assert Nodes(h, es[i].value, ts[i].value) <= Nodes(h, v, t);
        SeparateFrame(h, h', es[i].value, ts[i].value);
        UnfoldsFrame(h, h', es[i].value, ts[i].value);
      }
    case _ =>
  }

  lemma CopyFrame(h: Heap, h': Heap, v: Value, t: Tree, lo: nat, hi: nat)
    requires IsCopy(h, v, t, lo, hi)
    requires forall x | x in h && lo <= x < hi :: x in h' && h'[x] == h[x]
    ensures IsCopy(h', v, t, lo, hi)
    ensures Nodes(h', v, t) == Nodes(h, v, t)
  {
    NodesInHeap(h, v, t);
    UnfoldsFrame(h, h', v, t);
    SeparateFrame(h, h', v, t);
  }

  lemma {:induction false} NodesInHeap(h: Heap, v: Value, t: Tree)
    requires Unfolds(h, v, t)
    ensures Nodes(h, v, t) <= h.Keys
    decreases t
  {
    match t
    case ObjectTree(ts) =>
      forall k | k in ts ensures Nodes(h, h[v.id].properties[k].value, ts[k]) <= h.Keys {
        NodesInHeap(h, h[v.id].properties[k].value, ts[k]);
      }
    case ArrayTree(ts) =>
      forall i | 0 <= i < |ts| && ts[i].Some? ensures Nodes(h, h[v.id].elements[i].value, ts[i].value) <= h.Keys {
        NodesInHeap(h, h[v.id].elements[i].value, ts[i].value);
      }
    case _ =>
  }

  /** The parts of an object or array copied so far are copies, and share nothing. */
  ghost predicate PartsCopied<K(!new)>(h: Heap, parts: map<K, Value>, ts: map<K, Tree>, lo: nat, hi: nat) {
    && parts.Keys <= ts.Keys
    && (forall k | k in parts :: IsCopy(h, parts[k], ts[k], lo, hi))
    && forall k, k' | k in parts && k' in parts && k != k' :: Nodes(h, parts[k], ts[k]) !! Nodes(h, parts[k'], ts[k'])
  }

  /** One more part is copied to fresh nodes; the nodes of the earlier parts are left alone. */
  lemma AddPart<K(!new)>(h: Heap, h': Heap, parts: map<K, Value>, ts: map<K, Tree>, k: K, v: Value, lo: nat,
                  mid: nat, hi: nat)
    requires PartsCopied(h, parts, ts, lo, mid) && k in ts && k !in parts && lo <= mid <= hi
    requires IsCopy(h', v, ts[k], mid, hi)
    requires forall x | x in h && lo <= x < mid :: x in h' && h'[x] == h[x]
    ensures PartsCopied(h', parts[k := v], ts, lo, hi)
  {
    forall p | p in parts
      ensures IsCopy(h', parts[p], ts[p], lo, hi)
      ensures Nodes(h', parts[p], ts[p]) == Nodes(h, parts[p], ts[p])
      ensures Nodes(h', parts[p], ts[p]) !! Nodes(h', v, ts[k])
    {
      CopyFrame(h, h', parts[p], ts[p], lo, mid);
    }
  }

  lemma ObjectIsCopy(h: Heap, id: nat, ts: map<string, Tree>, hi: nat)
    requires id in h && h[id].ObjectNode? && id < hi
    requires h[id].properties.Keys == ts.Keys
    requires forall k | k in ts :: h[id].properties[k].Some?
    requires PartsCopied(h, Values(h[id].properties), ts, id + 1, hi)
    ensures IsCopy(h, Ref(id), ObjectTree(ts), id, hi)
  {
    var ps, parts := h[id].properties, Values(h[id].properties);
    forall k | k in ts ensures k in parts && parts[k] == ps[k].value {}
  }

  /** The properties that can be read. */
  ghost function Values(ps: map<string, Option<Value>>): map<string, Value> {
    map k | k in ps && ps[k].Some? :: ps[k].value
  }

  /** The readable elements, by index. */
  ghost function Readable<T>(es: seq<Option<T>>): map<int, T> {
    map i | 0 <= i < |es| && es[i].Some? :: es[i].value
  }

  lemma ArrayIsCopy(h: Heap, id: nat, ts: seq<Option<Tree>>, hi: nat)
    requires id in h && h[id].ArrayNode? && id < hi
    requires |h[id].elements| == |ts|
    requires forall i | 0 <= i < |ts| :: h[id].elements[i].Some? == ts[i].Some?
    requires PartsCopied(h, Readable(h[id].elements), Readable(ts), id + 1, hi)
    ensures IsCopy(h, Ref(id), ArrayTree(ts), id, hi)
  {
    var es, parts := h[id].elements, Readable(h[id].elements);
    forall i | 0 <= i < |ts| && ts[i].Some?
      ensures i in parts && parts[i] == es[i].value && Readable(ts)[i] == ts[i].value
    {
    }
  }

  // ---------------------------------------------------------------------------------------------
  // The engine and the restoring of a tree in it
  // ---------------------------------------------------------------------------------------------

  /** Everything that was there is still there, unchanged. */
  ghost predicate Extends(h: Heap, h': Heap) {
    forall x | x in h :: x in h' && h'[x] == h[x]
  }

  lemma ExtendsThenSets(h: Heap, h1: Heap, h2: Heap, id: nat, n: Node)
    requires Extends(h, h1) && Extends(h1, h2) && id !in h
    ensures Extends(h, h2[id := n])
  {
  }

  /** `failures` counts the calls to the engine that have failed, which any of them may. */
  class Engine {
    var heap: Heap
    var next: nat
    ghost var failures: nat

    /** Identities are handed out in order. */
    ghost predicate Valid() reads this {
      forall x | x in heap :: x < next
    }

    constructor (h: Heap, n: nat)
      requires forall x | x in h :: x < n
      ensures Valid() && heap == h && next == n
    {
      heap, next, failures := h, n, 0;
    }

    method Succeeds() returns (ok: bool)
      modifies this`failures
      ensures failures == if ok then old(failures) else old(failures) + 1
    {
      ok := *;
      if !ok { failures := failures + 1; }
    }

    method New(n: Node) returns (ok: bool, id: nat)
      requires Valid()
      modifies this
      ensures Valid() && failures == if ok then old(failures) else old(failures) + 1
      ensures ok ==> id == old(next) && next == id + 1 && heap == old(heap)[id := n]
      ensures !ok ==> next == old(next) && heap == old(heap)
    {
      ok := Succeeds();
      id := next;
      if ok { heap, next := heap[next := n], next + 1; }
    }

    method SetProperty(id: nat, k: string, v: Value) returns (ok: bool)
      requires Valid() && id in heap && heap[id].ObjectNode?
      modifies this`heap, this`failures
      ensures Valid() && failures == if ok then old(failures) else old(failures) + 1
      ensures heap == if ok then old(heap)[id := ObjectNode(old(heap)[id].properties[k := Some(v)])] else old(heap)
    {
      ok := Succeeds();
      if ok { heap := heap[id := ObjectNode(heap[id].properties[k := Some(v)])]; }
    }

    /** Setting an element beyond the end leaves unreadable elements between. */
    method SetElement(id: nat, i: nat, v: Value) returns (ok: bool)
      requires Valid() && id in heap && heap[id].ArrayNode?
      modifies this`heap, this`failures
      ensures Valid() && failures == if ok then old(failures) else old(failures) + 1
      ensures heap == if ok then old(heap)[id := ArrayNode(Stored(old(heap)[id].elements, i, v))] else old(heap)
    {
      ok := Succeeds();
      if ok { heap := heap[id := ArrayNode(Stored(heap[id].elements, i, v))]; }
    }

    /** Fails only if the engine does; objects made so far are left behind, and nothing else is touched. */
    method Unmarshal(t: Tree) returns (ok: bool, v: Value)
      requires Valid()
      modifies this
      ensures Valid() && old(next) <= next && Extends(old(heap), heap)
      ensures failures == if ok then old(failures) else old(failures) + 1
      ensures ok ==> IsCopy(heap, v, Restored(t), old(next), next)
      decreases t, 1
    {
      if t.ObjectTree? {
        ok, v := UnmarshalObject(t);
      } else if t.ArrayTree? {
        ok, v := UnmarshalArray(t);
      } else {
        ok, v := UnmarshalLeaf(t);
      }
    }

    method UnmarshalLeaf(t: Tree) returns (ok: bool, v: Value)
      requires Valid() && !t.ObjectTree? && !t.ArrayTree?
      modifies this
      ensures Valid() && old(next) <= next && Extends(old(heap), heap)
      ensures failures == if ok then old(failures) else old(failures) + 1
      ensures ok ==> IsCopy(heap, v, Restored(t), old(next), next)
    {
      v := NullValue;
      match t
      case BoolTree(b) => ok, v := Convert(BoolValue(b));
      case IntTree(i) => ok, v := Convert(IntValue(i));
      case DoubleTree(d) => ok, v := Convert(DoubleValue(d));
      case StringTree(s) => ok, v := Convert(StringValue(CString(s)));
      case NullTree => ok, v := Convert(NullValue);
      case UndefinedTree => ok, v := Convert(UndefinedValue);
      case ModuleTree(m) =>
        var id;
        ok, id := New(ModuleNode(Some(m)));
        v := Ref(id);
      case _ => ok := true;
    }

    method Convert(v: Value) returns (ok: bool, r: Value)
      modifies this`failures
      ensures r == v && failures == if ok then old(failures) else old(failures) + 1
    {
      ok := Succeeds();
      r := v;
    }

    method UnmarshalObject(t: Tree) returns (ok: bool, v: Value)
      requires Valid() && t.ObjectTree?
      modifies this
      ensures Valid() && old(next) <= next && Extends(old(heap), heap)
      ensures failures == if ok then old(failures) else old(failures) + 1
      ensures ok ==> IsCopy(heap, v, Restored(t), old(next), next)
      decreases t, 0
    {
      var ts := t.properties;
      var id;
      ok, id := New(ObjectNode(map[]));
      if !ok { return false, NullValue; }
      v := Ref(id);
      var names := ts.Keys;
      while names != {}
        invariant Valid() && id == old(next) < next && names <= ts.Keys && ok && failures == old(failures)
        invariant Extends(old(heap), heap)
        invariant ObjectSoFar(heap, id, ts, ts.Keys - names, next)
      {
        var k :| k in names;
        ok := UnmarshalProperty(id, ts, k, ts.Keys - names, old(heap));
        if !ok { return; }
        assert ts.Keys - (names - {k}) == ts.Keys - names + {k};
        names := names - {k};
      }
      ObjectDone(heap, id, ts, next);
    }

    method UnmarshalProperty(id: nat, ts: map<string, Tree>, k: string, ghost names: set<string>, ghost base: Heap)
      returns (ok: bool)
      requires Valid() && k in ts && k !in names && id < next && id !in base && Extends(base, heap)
      requires ObjectSoFar(heap, id, ts, names, next)
      modifies this
      ensures Valid() && old(next) <= next && Extends(base, heap)
      ensures failures == if ok then old(failures) else old(failures) + 1
      ensures ok ==> ObjectSoFar(heap, id, ts, names + {k}, next)
      decreases ts[k], 2
    {
      ghost var before, mid := heap, next;
      var value;
      ok, value := Unmarshal(ts[k]);
      if !ok { return; }
      ghost var between := heap;
      ok := SetProperty(id, k, value);
      if !ok { return; }
      ExtendsThenSets(base, before, between, id, heap[id]);
      AddProperty(before, between, id, ts, names, k, value, mid, next);
    }

    method UnmarshalArray(t: Tree) returns (ok: bool, v: Value)
      requires Valid() && t.ArrayTree?
      modifies this
      ensures Valid() && old(next) <= next && Extends(old(heap), heap)
      ensures failures == if ok then old(failures) else old(failures) + 1
      ensures ok ==> IsCopy(heap, v, Restored(t), old(next), next)
      decreases t, 0
    {
      var ts := t.elements;
      var id;
      ok, id := New(ArrayNode([]));
      if !ok { return false, NullValue; }
      v := Ref(id);
      var i := 0;
      while i < |ts|
        invariant Valid() && id == old(next) < next && i <= |ts| && ok && failures == old(failures)
        invariant Extends(old(heap), heap)
        invariant ArraySoFar(heap, id, ts, i, next)
      {
        if ts[i].Some? {
          ok := UnmarshalElement(id, ts, i, old(heap));
          if !ok { return; }
        } else {
          FilledSkip(heap[id].elements, ts, i);
        }
        i := i + 1;
      }
      ArrayDone(heap, id, ts, next);
    }

    method UnmarshalElement(id: nat, ts: seq<Option<Tree>>, i: nat, ghost base: Heap) returns (ok: bool)
      requires Valid() && i < |ts| && ts[i].Some? && id < next && id !in base && Extends(base, heap)
      requires ArraySoFar(heap, id, ts, i, next)
      modifies this
      ensures Valid() && old(next) <= next && Extends(base, heap)
      ensures failures == if ok then old(failures) else old(failures) + 1
      ensures ok ==> ArraySoFar(heap, id, ts, i + 1, next)
      decreases ts[i].value, 2
    {
      ghost var before, mid := heap, next;
      var value;
      ok, value := Unmarshal(ts[i].value);
      if !ok { return; }
      ghost var between := heap;
      ok := SetElement(id, i, value);
      if !ok { return; }
      ExtendsThenSets(base, before, between, id, heap[id]);
      AddElement(before, between, id, ts, i, value, mid, next);
    }
  }

  function Stored(es: seq<Option<Value>>, i: nat, v: Value): seq<Option<Value>> {
    if i < |es| then es[i := Some(v)]
    else es + seq(i - |es|, _ => None) + [Some(v)]
  }

  /** The elements set from the first i of ts. */
  ghost predicate Filled(es: seq<Option<Value>>, ts: seq<Option<Tree>>, i: nat)
    requires i <= |ts|
  {
    && |es| == SetLength(ts[..i])
    && forall j | 0 <= j < |es| :: es[j].Some? == ts[j].Some?
  }

  lemma StoredAt(es: seq<Option<Value>>, i: nat, v: Value)
    requires |es| <= i
    ensures |Stored(es, i, v)| == i + 1 && Stored(es, i, v)[i] == Some(v)
    ensures forall j | 0 <= j < i :: Stored(es, i, v)[j] == if j < |es| then es[j] else None
  {
  }

  lemma FilledStored(es: seq<Option<Value>>, ts: seq<Option<Tree>>, i: nat, v: Value)
    requires i < |ts| && Filled(es, ts, i) && ts[i].Some?
    ensures |es| <= i && Filled(Stored(es, i, v), ts, i + 1)
  {
    var es' := Stored(es, i, v);
    StoredAt(es, i, v);
    assert SetLength(ts[..i + 1]) == i + 1;
    forall j | 0 <= j <= i ensures es'[j].Some? == ts[j].Some? {
      if |es| <= j < i { assert ts[..i][j].None?; }
    }
  }

  lemma ReadableStored(es: seq<Option<Value>>, i: nat, v: Value)
    requires |es| <= i
    ensures i !in Readable(es) && Readable(Stored(es, i, v)) == Readable(es)[i := v]
  {
    StoredAt(es, i, v);
    var es' := Stored(es, i, v);
    forall j ensures j in Readable(es') <==> j in Readable(es)[i := v] {
      if j in Readable(es') && j < i { assert es'[j].Some?; }
    }
  }

  lemma FilledSkip(es: seq<Option<Value>>, ts: seq<Option<Tree>>, i: nat)
    requires i < |ts| && Filled(es, ts, i) && ts[i].None?
    ensures Filled(es, ts, i + 1)
  {
    assert ts[..i + 1][..i] == ts[..i];
  }

  /** The object's properties with the given names have been set. */
  ghost predicate ObjectSoFar(h: Heap, id: nat, ts: map<string, Tree>, names: set<string>, hi: nat) {
    && id in h && h[id].ObjectNode? && h[id].properties.Keys == names
    && (forall k | k in names :: h[id].properties[k].Some?)
    && PartsCopied(h, Values(h[id].properties), Restored(ObjectTree(ts)).properties, id + 1, hi)
  }

  lemma AddProperty(h: Heap, h': Heap, id: nat, ts: map<string, Tree>, names: set<string>, k: string, v: Value,
                    mid: nat, hi: nat)
    requires k in ts && k !in names && id < mid <= hi
    requires ObjectSoFar(h, id, ts, names, mid) && id in h'
    requires Extends(h, h')
    requires IsCopy(h', v, Restored(ts[k]), mid, hi)
    ensures ObjectSoFar(h'[id := ObjectNode(h[id].properties[k := Some(v)])], id, ts, names + {k}, hi)
  {
    var ps, rs := h[id].properties, Restored(ObjectTree(ts)).properties;
    var h'' := h'[id := ObjectNode(ps[k := Some(v)])];
    assert rs[k] == Restored(ts[k]);
    SetsBelow(h, h', id, h''[id]);
    assert IsCopy(h'', v, rs[k], mid, hi) by { CopyFrame(h', h'', v, rs[k], mid, hi); }
    assert PartsCopied(h'', Values(ps)[k := v], rs, id + 1, hi) by {
      AddPart(h, h'', Values(ps), rs, k, v, id + 1, mid, hi);
    }
    ValuesSet(ps, k, v);
  }

  /** Setting a node disturbs none of those above it. */
  lemma SetsBelow(h: Heap, h': Heap, id: nat, n: Node)
    requires Extends(h, h')
    ensures forall x | x in h && id < x :: x in h'[id := n] && h'[id := n][x] == h[x]
  {
  }

  lemma ValuesSet(ps: map<string, Option<Value>>, k: string, v: Value)
    ensures Values(ps[k := Some(v)]) == Values(ps)[k := v]
  {
  }

  lemma ObjectDone(h: Heap, id: nat, ts: map<string, Tree>, hi: nat)
    requires id < hi && ObjectSoFar(h, id, ts, ts.Keys, hi)
    ensures IsCopy(h, Ref(id), Restored(ObjectTree(ts)), id, hi)
  {
    ObjectIsCopy(h, id, Restored(ObjectTree(ts)).properties, hi);
  }

  /** The array's first i elements have been set. */
  ghost predicate ArraySoFar(h: Heap, id: nat, ts: seq<Option<Tree>>, i: nat, hi: nat)
    requires i <= |ts|
  {
    && id in h && h[id].ArrayNode? && Filled(h[id].elements, ts, i)
    && PartsCopied(h, Readable(h[id].elements), Readable(Restored(ArrayTree(ts)).elements), id + 1, hi)
  }

  lemma AddElement(h: Heap, h': Heap, id: nat, ts: seq<Option<Tree>>, i: nat, v: Value, mid: nat, hi: nat)
    requires i < |ts| && ts[i].Some? && id < mid <= hi
    requires ArraySoFar(h, id, ts, i, mid) && id in h'
    requires Extends(h, h')
    requires IsCopy(h', v, Restored(ts[i].value), mid, hi)
    ensures ArraySoFar(h'[id := ArrayNode(Stored(h[id].elements, i, v))], id, ts, i + 1, hi)
  {
    var es, rs := h[id].elements, Restored(ArrayTree(ts)).elements;
    var h'' := h'[id := ArrayNode(Stored(es, i, v))];
    FilledStored(es, ts, i, v);
    ReadableStored(es, i, v);
    assert i < SetLength(ts) by { assert forall j | SetLength(ts) <= j < |ts| :: ts[j].None?; }
    assert Readable(rs)[i] == Restored(ts[i].value);
    CopyFrame(h', h'', v, Restored(ts[i].value), mid, hi);
    AddPart(h, h'', Readable(es), Readable(rs), i, v, id + 1, mid, hi);
  }

  lemma ArrayDone(h: Heap, id: nat, ts: seq<Option<Tree>>, hi: nat)
    requires id < hi && ArraySoFar(h, id, ts, |ts|, hi)
    ensures IsCopy(h, Ref(id), Restored(ArrayTree(ts)), id, hi)
  {
    assert ts[..|ts|] == ts;
    ArrayIsCopy(h, id, Restored(ArrayTree(ts)).elements, hi);
  }

  // ---------------------------------------------------------------------------------------------
  // The round trip
  // ---------------------------------------------------------------------------------------------

  /**
    A value sent from one engine to another.  It arrives exactly when it has a finite unfolding, unless
    the receiving engine fails, as a separate copy made of fresh nodes; nothing that was there before is
    changed.
   */
  method Transfer(from: Heap, v: Value, to: Engine) returns (r: Option<Value>)
    requires to.Valid()
    modifies to
    ensures to.Valid() && Extends(old(to.heap), to.heap)
    ensures to.failures == old(to.failures) ==> (r.None? <==> forall t :: !Unfolds(from, v, t))
    ensures r.Some? ==> exists t :: Unfolds(from, v, t) && IsCopy(to.heap, r.value, Restored(t), old(to.next), to.next)
  {
    var m := new Marshaler(from);
    assert Elements(m.objectStack) == {};
    var t;
    ghost var why;
    t, why := m.Marshal(v);
    if t.None? {
      forall t' ensures !Unfolds(from, v, t') { MarshalIsUnfolding(from, v, t'); }
      return None;
    }
    MarshalIsUnfolding(from, v, t.value);
    var ok, copy := to.Unmarshal(t.value);
    return if ok then Some(copy) else None;
  }

  /** A copy looks like its original exactly when the original is transferable. */
  lemma CopyIsFaithful(from: Heap, v: Value, t: Tree, to: Heap, r: Value, lo: nat, hi: nat)
    requires Unfolds(from, v, t) && IsCopy(to, r, Restored(t), lo, hi)
    ensures Unfolds(to, r, t) <==> Transferable(t)
  {
    RestoredIsSame(t);
    if Unfolds(to, r, t) { UnfoldingIsUnique(to, r, t, Restored(t)); }
  }
}
