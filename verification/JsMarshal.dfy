/**
  Marshaling of JavaScript values: an object graph, which may share nodes and have cycles, is copied
  into a tree, and a tree is restored as fresh objects.

  The engine's heap is a finite map from object identities to nodes.  A property or an array element
  that cannot be read is `None`.  A Gears module is a node that may or may not have a marshaled form.
  A value that the engine fails to convert is `Unconvertible`, and an object or array that it fails to
  open, or to list the names or the length of, is a `BrokenNode`.
 */
module JsMarshal {
  import opened Basics

  datatype Value =
    | BoolValue(b: bool)
    | IntValue(i: int)
    | DoubleValue(d: real)
    | StringValue(s: string)
    | NullValue
    | UndefinedValue
    | FunctionValue
    | ArbitraryValue
    | Unconvertible
    | Ref(id: nat)

  datatype Node =
    | ObjectNode(properties: map<string, Option<Value>>)
    | ArrayNode(elements: seq<Option<Value>>)
    | BrokenNode
    | ModuleNode(marshaled: Option<int>)

  type Heap = map<nat, Node>

  datatype Tree =
    | BoolTree(b: bool)
    | IntTree(i: int)
    | DoubleTree(d: real)
    | StringTree(s: string)
    | NullTree
    | UndefinedTree
    | ModuleTree(module_: int)
    | ObjectTree(properties: map<string, Tree>)
    | ArrayTree(elements: seq<Option<Tree>>)

  // ---------------------------------------------------------------------------------------------
  // Marshaling
  // ---------------------------------------------------------------------------------------------

  /** `path` holds the objects and arrays that are being marshaled around this value. */
  function Marshaled(h: Heap, v: Value, path: set<nat>): Option<Tree>
    decreases h.Keys - path, 0
  {
    match v
    case BoolValue(b) => Some(BoolTree(b))
    case IntValue(i) => Some(IntTree(i))
    case DoubleValue(d) => Some(DoubleTree(d))
    case StringValue(s) => Some(StringTree(s))
    case NullValue => Some(NullTree)
    case UndefinedValue => Some(UndefinedTree)
    case FunctionValue => None
    case ArbitraryValue => None
    case Unconvertible => None
    case Ref(id) =>
      if id !in h then None
      else match h[id]
        case ModuleNode(m) => if m.Some? then Some(ModuleTree(m.value)) else None
        case ObjectNode(ps) => if id in path then None else MarshaledObject(h, ps, path + {id})
        case ArrayNode(es) => if id in path then None else MarshaledArray(h, es, path + {id})
        case BrokenNode => None
  }

  function MarshaledObject(h: Heap, ps: map<string, Option<Value>>, path: set<nat>): Option<Tree>
    decreases h.Keys - path, 1
  {
    if forall k | k in ps :: ps[k].Some? && Marshaled(h, ps[k].value, path).Some?
    then Some(ObjectTree(map k | k in ps :: Marshaled(h, ps[k].value, path).value))
    else None
  }

  function MarshaledArray(h: Heap, es: seq<Option<Value>>, path: set<nat>): Option<Tree>
    decreases h.Keys - path, 1
  {
    if forall i | 0 <= i < |es| :: es[i].Some? ==> Marshaled(h, es[i].value, path).Some?
    then Some(ArrayTree(seq(|es|, i requires 0 <= i < |es| =>
           if es[i].Some? then Some(Marshaled(h, es[i].value, path).value) else None)))
    else None
  }

  lemma ObjectFromParts(h: Heap, ps: map<string, Option<Value>>, path: set<nat>, ts: map<string, Tree>)
    requires ps.Keys == ts.Keys
    requires forall k | k in ts :: ps[k].Some? && Marshaled(h, ps[k].value, path) == Some(ts[k])
    ensures MarshaledObject(h, ps, path) == Some(ObjectTree(ts))
  {
    assert ts == map k | k in ps :: Marshaled(h, ps[k].value, path).value;
  }

  lemma ArrayFromParts(h: Heap, es: seq<Option<Value>>, path: set<nat>, ts: seq<Option<Tree>>)
    requires |es| == |ts|
    requires forall i | 0 <= i < |ts| :: es[i].Some? == ts[i].Some?
    requires forall i | 0 <= i < |ts| && ts[i].Some? :: Marshaled(h, es[i].value, path) == ts[i]
    ensures MarshaledArray(h, es, path) == Some(ArrayTree(ts))
  {
    assert MarshaledArray(h, es, path).Some?;
    assert MarshaledArray(h, es, path).value.elements == ts;
  }

  // ---------------------------------------------------------------------------------------------
  // The tree unfolding, independently of how it is computed
  // ---------------------------------------------------------------------------------------------

  /** The tree t is what one sees when one looks at v in the heap h. */
  ghost predicate Unfolds(h: Heap, v: Value, t: Tree)
    decreases t
  {
    match t
    case BoolTree(b) => v == BoolValue(b)
    case IntTree(i) => v == IntValue(i)
    case DoubleTree(d) => v == DoubleValue(d)
    case StringTree(s) => v == StringValue(s)
    case NullTree => v == NullValue
    case UndefinedTree => v == UndefinedValue
    case ModuleTree(m) => v.Ref? && v.id in h && h[v.id] == ModuleNode(Some(m))
    case ObjectTree(ts) =>
      && v.Ref? && v.id in h && h[v.id].ObjectNode?
      && var ps := h[v.id].properties;
         ps.Keys == ts.Keys && forall k | k in ts :: ps[k].Some? && Unfolds(h, ps[k].value, ts[k])
    case ArrayTree(ts) =>
      && v.Ref? && v.id in h && h[v.id].ArrayNode?
      && var es := h[v.id].elements;
         && |es| == |ts|
         && forall i | 0 <= i < |ts| ::
              es[i].Some? == ts[i].Some? && (ts[i].Some? ==> Unfolds(h, es[i].value, ts[i].value))
  }

  lemma {:induction false} MarshalUnfolds(h: Heap, v: Value, path: set<nat>)
    requires Marshaled(h, v, path).Some?
    ensures Unfolds(h, v, Marshaled(h, v, path).value)
    decreases h.Keys - path
  {
    if v.Ref? {
      match h[v.id]
      case ModuleNode(_) =>
      case ObjectNode(ps) =>
        forall k | k in ps ensures Unfolds(h, ps[k].value, Marshaled(h, ps[k].value, path + {v.id}).value) {
          MarshalUnfolds(h, ps[k].value, path + {v.id});
        }
      case ArrayNode(es) =>
        forall i | 0 <= i < |es| && es[i].Some?
          ensures Unfolds(h, es[i].value, Marshaled(h, es[i].value, path + {v.id}).value)
        {
          MarshalUnfolds(h, es[i].value, path + {v.id});
        }
    }
  }

  lemma {:induction false} UnfoldingIsUnique(h: Heap, v: Value, t: Tree, t': Tree)
    requires Unfolds(h, v, t) && Unfolds(h, v, t')
    ensures t == t'
    decreases t
  {
    match t
    case ObjectTree(ts) =>
      forall k | k in ts ensures ts[k] == t'.properties[k] {
        UnfoldingIsUnique(h, h[v.id].properties[k].value, ts[k], t'.properties[k]);
      }
      assert ts == t'.properties;
    case ArrayTree(ts) =>
      forall i | 0 <= i < |ts| ensures ts[i] == t'.elements[i] {
        if ts[i].Some? {
          UnfoldingIsUnique(h, h[v.id].elements[i].value, ts[i].value, t'.elements[i].value);
        }
      }
      assert ts == t'.elements;
    case _ =>
  }

  /** A value with a finite unfolding is marshaled: the enclosing objects all unfold to larger trees. */
  lemma {:induction false} FiniteIsMarshaled(h: Heap, v: Value, t: Tree, path: set<nat>, around: map<nat, Tree>)
    requires Unfolds(h, v, t) && path == around.Keys
    requires forall x | x in around :: Unfolds(h, Ref(x), around[x]) && (around[x] decreases to t)
    ensures Marshaled(h, v, path) == Some(t)
    decreases t
  {
    match t
    case ObjectTree(ts) =>
      var ps, around' := h[v.id].properties, around[v.id := t];
      if v.id in path { UnfoldingIsUnique(h, v, t, around[v.id]); }
      forall k | k in ts ensures Marshaled(h, ps[k].value, path + {v.id}) == Some(ts[k]) {
        FiniteIsMarshaled(h, ps[k].value, ts[k], path + {v.id}, around');
      }
      ObjectFromParts(h, ps, path + {v.id}, ts);
    case ArrayTree(ts) =>
      var es, around' := h[v.id].elements, around[v.id := t];
      if v.id in path { UnfoldingIsUnique(h, v, t, around[v.id]); }
      forall i | 0 <= i < |ts| && ts[i].Some? ensures Marshaled(h, es[i].value, path + {v.id}) == ts[i] {
        FiniteIsMarshaled(h, es[i].value, ts[i].value, path + {v.id}, around');
      }
      ArrayFromParts(h, es, path + {v.id}, ts);
    case _ =>
  }

  /** Marshal returns a tree exactly when that tree is the unfolding of the value. */
  lemma MarshalIsUnfolding(h: Heap, v: Value, t: Tree)
    ensures Marshaled(h, v, {}) == Some(t) <==> Unfolds(h, v, t)
  {
    if Marshaled(h, v, {}) == Some(t) { MarshalUnfolds(h, v, {}); }
    if Unfolds(h, v, t) { FiniteIsMarshaled(h, v, t, {}, map[]); }
  }

  // ---------------------------------------------------------------------------------------------
  // Cycles
  // ---------------------------------------------------------------------------------------------

  ghost predicate Plain(h: Heap, a: nat) {
    a in h && !h[a].ModuleNode?
  }

  ghost predicate Child(n: Node, v: Value) {
    match n
    case ObjectNode(ps) => exists k | k in ps :: ps[k] == Some(v)
    case ArrayNode(es) => Some(v) in es
    case ModuleNode(_) => false
    case BrokenNode => false
  }

  ghost predicate SupportedLeaf(v: Value) {
    !v.Ref? && !v.FunctionValue? && !v.ArbitraryValue? && !v.Unconvertible?
  }

  /**
    A readable object or array whose children can be marshaled or are nodes, or a module that can be
    marshaled; all properties of an object must be readable.
   */
  ghost predicate SupportedNode(h: Heap, a: nat) {
    && a in h && !h[a].BrokenNode?
    && (h[a].ObjectNode? ==> forall k | k in h[a].properties :: h[a].properties[k].Some?)
    && (h[a].ModuleNode? ==> h[a].marshaled.Some?)
    && forall v | Child(h[a], v) :: v.Ref? || SupportedLeaf(v)
  }

  /** A walk through plain objects and arrays. */
  ghost predicate IsPath(h: Heap, p: seq<nat>) {
    && p != []
    && forall i | 0 <= i < |p| - 1 :: p[i] in h && Child(h[p[i]], Ref(p[i + 1]))
  }

  /** The walk ends at a node that stops the marshaling: unsupported, or an object it has been through. */
  ghost predicate Offends(h: Heap, path: set<nat>, p: seq<nat>)
    requires p != []
  {
    var z := p[|p| - 1];
    !SupportedNode(h, z) || (Plain(h, z) && (z in path || z in p[..|p| - 1]))
  }

  lemma PathStep(h: Heap, path: set<nat>, p: seq<nat>)
    requires IsPath(h, p) && |p| > 1
    ensures IsPath(h, p[1..]) && Child(h[p[0]], Ref(p[1]))
    ensures Offends(h, path, p) <==> Offends(h, path + {p[0]}, p[1..])
  {
    var q := p[1..];
    var z := p[|p| - 1];
    assert p[..|p| - 1] == [p[0]] + q[..|q| - 1];
    assert z == q[|q| - 1];
  }

  lemma PathCons(h: Heap, path: set<nat>, a: nat, q: seq<nat>)
    requires IsPath(h, q) && a in h && Child(h[a], Ref(q[0]))
    ensures IsPath(h, [a] + q)
    ensures Offends(h, path, [a] + q) <==> Offends(h, path + {a}, q)
  {
    PathStep(h, path, [a] + q);
  }

  /** A walk that offends makes Marshal fail. */
  lemma {:induction false} OffenceFails(h: Heap, path: set<nat>, p: seq<nat>)
    requires IsPath(h, p) && Offends(h, path, p)
    ensures Marshaled(h, Ref(p[0]), path).None?
    decreases |p|
  {
    var a := p[0];
    if |p| == 1 {
      if a in h && h[a].ObjectNode? && exists k :: k in h[a].properties && h[a].properties[k].None? {
        assert MarshaledObject(h, h[a].properties, path + {a}).None?;
      } else if a in h && !SupportedNode(h, a) && h[a].ObjectNode? {
        var v :| Child(h[a], v) && !(v.Ref? || SupportedLeaf(v));
        assert Marshaled(h, v, path + {a}).None?;
      } else if a in h && !SupportedNode(h, a) && h[a].ArrayNode? {
        var v :| Child(h[a], v) && !(v.Ref? || SupportedLeaf(v));
        var i :| 0 <= i < |h[a].elements| && h[a].elements[i] == Some(v);
        assert Marshaled(h, v, path + {a}).None?;
      }
    } else {
      PathStep(h, path, p);
      OffenceFails(h, path + {a}, p[1..]);
      if h[a].ArrayNode? {
        var i :| 0 <= i < |h[a].elements| && h[a].elements[i] == Some(Ref(p[1]));
      }
    }
  }

  /** If Marshal fails on a node, some walk from it offends. */
  lemma {:induction false} FailureOffends(h: Heap, a: nat, path: set<nat>) returns (p: seq<nat>)
    requires Marshaled(h, Ref(a), path).None?
    ensures IsPath(h, p) && p[0] == a && Offends(h, path, p)
    decreases h.Keys - path
  {
    p := [a];
    if !Offends(h, path, p) {
      var v := FailingChild(h, a, path);
      if v.Ref? {
        var q := FailureOffends(h, v.id, path + {a});
        PathCons(h, path, a, q);
        p := [a] + q;
      }
    }
  }

  lemma FailingChild(h: Heap, a: nat, path: set<nat>) returns (v: Value)
    requires Marshaled(h, Ref(a), path).None? && SupportedNode(h, a) && Plain(h, a) && a !in path
    ensures Child(h[a], v) && Marshaled(h, v, path + {a}).None?
  {
    match h[a]
    case ObjectNode(ps) =>
      var k :| k in ps && Marshaled(h, ps[k].value, path + {a}).None?;
      v := ps[k].value;
    case ArrayNode(es) =>
      var i :| 0 <= i < |es| && es[i].Some? && Marshaled(h, es[i].value, path + {a}).None?;
      v := es[i].value;
      assert es[i] == Some(v);
  }

  /**
    Marshal decides acyclicity: it returns a tree exactly when no walk from the value through plain
    objects and arrays comes back to one of them, and everything it can reach is supported.
   */
  lemma MarshalDecidesAcyclicity(h: Heap, a: nat)
    ensures Marshaled(h, Ref(a), {}).Some?
       <==> forall p | IsPath(h, p) && p[0] == a ::
              SupportedNode(h, p[|p| - 1]) && (Plain(h, p[|p| - 1]) ==> p[|p| - 1] !in p[..|p| - 1])
  {
    if Marshaled(h, Ref(a), {}).None? {
      var p := FailureOffends(h, a, {});
    } else {
      forall p | IsPath(h, p) && p[0] == a ensures !Offends(h, {}, p) {
        if Offends(h, {}, p) { OffenceFails(h, {}, p); }
      }
    }
  }

  ghost function Elements(s: seq<nat>): set<nat> {
    set x | x in s
  }

  // ---------------------------------------------------------------------------------------------
  // Error messages
  // ---------------------------------------------------------------------------------------------

  /** The four messages; a failure of the engine has none. */
  datatype Complaint = Cycle | ArbitraryModule | Function | ArbitraryToken

  /** Marshaling fails because of this. */
  ghost predicate Blames(h: Heap, v: Value, path: set<nat>, e: Option<Complaint>)
    decreases h.Keys - path
  {
    match v
    case FunctionValue => e == Some(Function)
    case ArbitraryValue => e == Some(ArbitraryToken)
    case Unconvertible => e == None
    case Ref(id) =>
      if id !in h then e == None
      else if h[id].ModuleNode? then h[id].marshaled.None? && e == Some(ArbitraryModule)
      else if id in path then e == Some(Cycle)
      else (
        match h[id]
        case ObjectNode(ps) =>
          exists k | k in ps :: if ps[k].None? then e == None else Blames(h, ps[k].value, path + {id}, e)
        case ArrayNode(es) => exists i | 0 <= i < |es| :: es[i].Some? && Blames(h, es[i].value, path + {id}, e)
        case _ => e == None)
    case _ => false
  }

  /** A walk from v to u through objects and arrays, none of them met before and none twice. */
  ghost predicate Walk(h: Heap, v: Value, seen: set<nat>, p: seq<nat>, u: Value)
    decreases |p|
  {
    if p == [] then u == v
    else
      && v == Ref(p[0]) && Plain(h, p[0]) && p[0] !in seen
      && exists w :: Child(h[p[0]], w) && Walk(h, w, seen + {p[0]}, p[1..], u)
  }

  /** What the message says is the case at u, which has been reached through those objects and arrays. */
  ghost predicate Culprit(h: Heap, seen: set<nat>, u: Value, e: Complaint) {
    match e
    case Cycle => u.Ref? && Plain(h, u.id) && u.id in seen
    case ArbitraryModule => u.Ref? && u.id in h && h[u.id] == ModuleNode(None)
    case Function => u == FunctionValue
    case ArbitraryToken => u == ArbitraryValue
  }

  /** The engine fails at u: to convert it, to open it or list what it holds, or to read a property. */
  ghost predicate EngineFails(h: Heap, seen: set<nat>, u: Value) {
    || u == Unconvertible
    || (u.Ref? && u.id !in h)
    || (u.Ref? && u.id !in seen && h[u.id].BrokenNode?)
    || (u.Ref? && u.id !in seen && h[u.id].ObjectNode?
        && exists k | k in h[u.id].properties :: h[u.id].properties[k].None?)
  }

  /** What is to be blamed is the case somewhere on the way. */
  ghost predicate IsMet(h: Heap, v: Value, seen: set<nat>, e: Option<Complaint>) {
    exists p, u ::
      Walk(h, v, seen, p, u)
      && if e.Some? then Culprit(h, seen + Elements(p), u, e.value) else EngineFails(h, seen + Elements(p), u)
  }

  lemma MetHere(h: Heap, v: Value, seen: set<nat>, e: Option<Complaint>)
    requires if e.Some? then Culprit(h, seen, v, e.value) else EngineFails(h, seen, v)
    ensures IsMet(h, v, seen, e)
  {
    assert seen + Elements([]) == seen;
    assert Walk(h, v, seen, [], v);
  }

  lemma MetBelow(h: Heap, a: nat, w: Value, seen: set<nat>, e: Option<Complaint>)
    requires Plain(h, a) && a !in seen && Child(h[a], w) && IsMet(h, w, seen + {a}, e)
    ensures IsMet(h, Ref(a), seen, e)
  {
    var q, u :| Walk(h, w, seen + {a}, q, u)
      && if e.Some? then Culprit(h, seen + {a} + Elements(q), u, e.value)
         else EngineFails(h, seen + {a} + Elements(q), u);
    var p := [a] + q;
    assert p[1..] == q;
    assert Elements(p) == {a} + Elements(q);
    assert seen + {a} + Elements(q) == seen + Elements(p);
    assert Walk(h, Ref(a), seen, p, u);
  }

  /**
    A failure is blamed on something exactly if one comes to it: a message tells the truth, a failure
    without a message is one of the engine, and whatever would be complained about can be.
   */
  lemma {:induction false} BlameIsTrue(h: Heap, v: Value, seen: set<nat>, e: Option<Complaint>)
    ensures Blames(h, v, seen, e) <==> IsMet(h, v, seen, e)
    decreases h.Keys - seen
  {
    if Blames(h, v, seen, e) {
      if v.Ref? && Plain(h, v.id) && v.id !in seen && (e.Some? || !EngineFails(h, seen, v)) {
        var w := BlamedChild(h, v.id, seen, e);
        BlameIsTrue(h, w, seen + {v.id}, e);
        MetBelow(h, v.id, w, seen, e);
      } else {
        MetHere(h, v, seen, e);
      }
    }
    if IsMet(h, v, seen, e) { MetIsBlamed(h, v, seen, e); }
  }

  lemma {:induction false} MetIsBlamed(h: Heap, v: Value, seen: set<nat>, e: Option<Complaint>)
    requires IsMet(h, v, seen, e)
    ensures Blames(h, v, seen, e)
    decreases h.Keys - seen
  {
    var p, u :| Walk(h, v, seen, p, u)
      && if e.Some? then Culprit(h, seen + Elements(p), u, e.value) else EngineFails(h, seen + Elements(p), u);
    if p == [] {
      assert seen + Elements(p) == seen;
    } else {
      var a := p[0];
      var w :| Child(h[a], w) && Walk(h, w, seen + {a}, p[1..], u);
      assert Elements(p) == {a} + Elements(p[1..]);
      assert seen + {a} + Elements(p[1..]) == seen + Elements(p);
      assert IsMet(h, w, seen + {a}, e);
      MetIsBlamed(h, w, seen + {a}, e);
      ChildIsBlamed(h, a, w, seen, e);
    }
  }

  lemma ChildIsBlamed(h: Heap, a: nat, w: Value, seen: set<nat>, e: Option<Complaint>)
    requires Plain(h, a) && a !in seen && Child(h[a], w) && Blames(h, w, seen + {a}, e)
    ensures Blames(h, Ref(a), seen, e)
  {
    if h[a].ArrayNode? {
      var i :| 0 <= i < |h[a].elements| && h[a].elements[i] == Some(w);
    }
  }

  lemma BlamedChild(h: Heap, a: nat, seen: set<nat>, e: Option<Complaint>) returns (w: Value)
    requires Plain(h, a) && a !in seen && Blames(h, Ref(a), seen, e)
    requires e.Some? || !EngineFails(h, seen, Ref(a))
    ensures Child(h[a], w) && Blames(h, w, seen + {a}, e)
  {
    if h[a].ObjectNode? {
      var ps := h[a].properties;
      var k :| k in ps && if ps[k].None? then e == None else Blames(h, ps[k].value, seen + {a}, e);
      w := ps[k].value;
    } else {
      var es := h[a].elements;
      var i :| 0 <= i < |es| && es[i].Some? && Blames(h, es[i].value, seen + {a}, e);
      w := es[i].value;
      assert es[i] == Some(w);
    }
  }

  // ---------------------------------------------------------------------------------------------
  // The marshaler, with its stack of enclosing objects
  // ---------------------------------------------------------------------------------------------

  class Marshaler {
    const heap: Heap
    var objectStack: seq<nat>
    var error: Option<Complaint>

    constructor (h: Heap)
      ensures heap == h && objectStack == [] && error == None
    {
      heap, objectStack, error := h, [], None;
    }

    method CausesCycle(token: nat) returns (r: bool)
      modifies this`error
      ensures r <==> token in objectStack
      ensures error == if r then Some(Cycle) else old(error)
    {
      var i := 0;
      while i < |objectStack|
        invariant i <= |objectStack| && error == old(error)
        invariant token !in objectStack[..i]
      {
        if objectStack[i] == token {
          error := Some(Cycle);
          return true;
        }
        i := i + 1;
      }
      return false;
    }

    /** The message that is left is the old one, or one that the failure is to be blamed on. */
    ghost predicate Explained(failed: bool, blamed: bool, was: Option<Complaint>, why: Option<Complaint>)
      reads this
    {
      if failed then blamed && error == (if why.Some? then why else was) else error == was
    }

    method Marshal(v: Value) returns (r: Option<Tree>, ghost why: Option<Complaint>)
      modifies this
      ensures objectStack == old(objectStack)
      ensures r == Marshaled(heap, v, Elements(objectStack))
      ensures Explained(r.None?, Blames(heap, v, Elements(objectStack), why), old(error), why)
      decreases heap.Keys - Elements(objectStack), 1
    {
      why := None;
      match v
      case BoolValue(b) => return Some(BoolTree(b)), why;
      case IntValue(i) => return Some(IntTree(i)), why;
      case DoubleValue(d) => return Some(DoubleTree(d)), why;
      case StringValue(s) => return Some(StringTree(s)), why;
      case NullValue => return Some(NullTree), why;
      case UndefinedValue => return Some(UndefinedTree), why;
      case FunctionValue =>
        error := Some(Function);
        return None, error;
      case ArbitraryValue =>
        error := Some(ArbitraryToken);
        return None, error;
      case Unconvertible => return None, why;
      case Ref(id) => r, why := MarshalNode(id);
    }

    method MarshalNode(id: nat) returns (r: Option<Tree>, ghost why: Option<Complaint>)
      modifies this
      ensures objectStack == old(objectStack)
      ensures r == Marshaled(heap, Ref(id), Elements(objectStack))
      ensures Explained(r.None?, Blames(heap, Ref(id), Elements(objectStack), why), old(error), why)
      decreases heap.Keys - Elements(objectStack), 0
    {
      why := None;
      if id !in heap { return None, why; }
      if heap[id].ModuleNode? {
        if heap[id].marshaled.Some? { return Some(ModuleTree(heap[id].marshaled.value)), why; }
        error := Some(ArbitraryModule);
        return None, error;
      }
      var cycle := CausesCycle(id);
      if cycle { return None, error; }
      ghost var path := Elements(objectStack);
      objectStack := objectStack + [id];
      assert Elements(objectStack) == path + {id};
      assert id in heap.Keys - path;
      r := None;
      match heap[id] {
        case ObjectNode(ps) => r, why := InitializeFromObject(ps);
        case ArrayNode(es) => r, why := InitializeFromArray(es);
        case _ =>
      }
      objectStack := objectStack[..|objectStack| - 1];
    }

    method InitializeFromObject(ps: map<string, Option<Value>>) returns (r: Option<Tree>, ghost why: Option<Complaint>)
      modifies this
      ensures objectStack == old(objectStack)
      ensures r == MarshaledObject(heap, ps, Elements(objectStack))
      ensures Explained(r.None?, ObjectBlames(heap, ps, Elements(objectStack), why), old(error), why)
      decreases heap.Keys - Elements(objectStack), 2
    {
      ghost var path := Elements(objectStack);
      var o: map<string, Tree> := map[];
      var names := ps.Keys;
      while names != {}
        invariant names <= ps.Keys && o.Keys == ps.Keys - names
        invariant objectStack == old(objectStack) && error == old(error)
        invariant forall k | k in o :: ps[k].Some? && Marshaled(heap, ps[k].value, path) == Some(o[k])
      {
        var k :| k in names;
        if ps[k].None? { return None, None; }
        var value;
        value, why := Marshal(ps[k].value);
        if value.None? { return None, why; }
        o := o[k := value.value];
        names := names - {k};
      }
      ObjectFromParts(heap, ps, path, o);
      return Some(ObjectTree(o)), None;
    }

    method InitializeFromArray(es: seq<Option<Value>>) returns (r: Option<Tree>, ghost why: Option<Complaint>)
      modifies this
      ensures objectStack == old(objectStack)
      ensures r == MarshaledArray(heap, es, Elements(objectStack))
      ensures Explained(r.None?, ArrayBlames(heap, es, Elements(objectStack), why), old(error), why)
      decreases heap.Keys - Elements(objectStack), 2
    {
      ghost var path := Elements(objectStack);
      var a: seq<Option<Tree>> := [];
      while |a| < |es|
        invariant |a| <= |es| && objectStack == old(objectStack) && error == old(error)
        invariant forall i | 0 <= i < |a| :: es[i].Some? == a[i].Some?
        invariant forall i | 0 <= i < |a| && es[i].Some? :: Marshaled(heap, es[i].value, path) == a[i]
      {
        var e := es[|a|];
        if e.Some? {
          var element;
          element, why := Marshal(e.value);
          if element.None? { return None, why; }
          a := a + [element];
        } else {
          a := a + [None];
        }
      }
      ArrayFromParts(heap, es, path, a);
      return Some(ArrayTree(a)), None;
    }
  }

  ghost predicate ObjectBlames(h: Heap, ps: map<string, Option<Value>>, path: set<nat>, e: Option<Complaint>) {
    exists k | k in ps :: if ps[k].None? then e == None else Blames(h, ps[k].value, path, e)
  }

  ghost predicate ArrayBlames(h: Heap, es: seq<Option<Value>>, path: set<nat>, e: Option<Complaint>) {
    exists i | 0 <= i < |es| :: es[i].Some? && Blames(h, es[i].value, path, e)
  }
}
