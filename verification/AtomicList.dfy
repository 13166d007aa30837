/**
  The lock-free list: threads insert values by claiming an empty node or by pushing a new node to the
  front, in any interleaving of their loads, stores and compare-and-swaps.

  Nodes are never freed, so a pointer is an index into the sequence of all nodes ever made.  The
  default value marks an empty node.
 */
module AtomicList {
  import opened Basics

  const DEFAULT: int := 0

  type Ptr = Option<nat>

  datatype Node = Node(value: int, next: Ptr)

  /** Where a thread is in put, push_front or dismiss, with its local variables. */
  datatype Pc =
    | Idle
    | Scan(value: int, at: Ptr)
    | Claim(value: int, node: nat)
    | Advance(value: int, node: nat)
    | LoadHead(value: int, node: nat)
    | SetNext(value: int, node: nat, seen: Ptr)
    | SwapHead(value: int, node: nat, seen: Ptr)
    | ReadValue(node: nat)
    | SwapValue(node: nat, value: int)

  /** A put that has returned, and the node its iterator points to. */
  datatype Put = Put(value: int, node: nat)

  /** `list` is the nodes pushed so far, last first; `done` is the history of completed puts. */
  datatype State = State(nodes: seq<Node>, head: Ptr, list: seq<nat>, threads: seq<Pc>, done: seq<Put>)

  datatype Action =
    | StartPut(thread: nat, value: int)
    | StartDismiss(thread: nat, node: nat)
    | Continue(thread: nat)

  function Initial(threads: nat): State {
    State([], None, [], seq(threads, _ => Idle), [])
  }

  // ---------------------------------------------------------------------------------------------
  // Steps
  // ---------------------------------------------------------------------------------------------

  predicate Enabled(s: State, a: Action) {
    && a.thread < |s.threads|
    && match a
       case StartPut(t, _) => s.threads[t].Idle?
       case StartDismiss(t, n) => s.threads[t].Idle? && n in s.list
       case Continue(t) => !s.threads[t].Idle?
  }

  function At(s: State, t: nat, pc: Pc): State
    requires t < |s.threads|
  {
    s.(threads := s.threads[t := pc])
  }

  function SetValue(nodes: seq<Node>, n: nat, v: int): seq<Node> {
    if n < |nodes| then nodes[n := nodes[n].(value := v)] else nodes
  }

  function SetLink(nodes: seq<Node>, n: nat, p: Ptr): seq<Node> {
    if n < |nodes| then nodes[n := nodes[n].(next := p)] else nodes
  }

  function ValueOf(s: State, n: nat): int {
    if n < |s.nodes| then s.nodes[n].value else DEFAULT
  }

  function NextOf(s: State, n: nat): Ptr {
    if n < |s.nodes| then s.nodes[n].next else None
  }

  /** One load, store or compare-and-swap of a thread. */
  function ThreadStep(s: State, t: nat): State
    requires t < |s.threads|
  {
    match s.threads[t]
    case Idle => s
    case Scan(v, None) => At(s, t, LoadHead(v, |s.nodes|)).(nodes := s.nodes + [Node(v, None)])
    case Scan(v, Some(n)) => At(s, t, if ValueOf(s, n) == DEFAULT then Claim(v, n) else Advance(v, n))
    case Claim(v, n) =>
      if ValueOf(s, n) == DEFAULT
      then At(s, t, Idle).(nodes := SetValue(s.nodes, n, v), done := s.done + [Put(v, n)])
      else At(s, t, Advance(v, n))
    case Advance(v, n) => At(s, t, Scan(v, NextOf(s, n)))
    case LoadHead(v, n) => At(s, t, SetNext(v, n, s.head))
    case SetNext(v, n, seen) => At(s, t, SwapHead(v, n, seen)).(nodes := SetLink(s.nodes, n, seen))
    case SwapHead(v, n, seen) =>
      if s.head == seen
      then At(s, t, Idle).(head := Some(n), list := [n] + s.list, done := s.done + [Put(v, n)])
      else At(s, t, LoadHead(v, n))
    case ReadValue(n) => At(s, t, SwapValue(n, ValueOf(s, n)))
    case SwapValue(n, v) =>
      // The arguments are the wrong way round: the default value is what is expected.
      if ValueOf(s, n) == DEFAULT then At(s, t, Idle).(nodes := SetValue(s.nodes, n, v)) else At(s, t, Idle)
  }

  function Step(s: State, a: Action): State
    requires Enabled(s, a)
  {
    match a
    case StartPut(t, v) => At(s, t, Scan(v, s.head))
    case StartDismiss(t, n) => At(s, t, ReadValue(n))
    case Continue(t) => ThreadStep(s, t)
  }

  ghost predicate IsRun(s: State, acts: seq<Action>)
    decreases |acts|
  {
    acts == [] || (Enabled(s, acts[0]) && IsRun(Step(s, acts[0]), acts[1..]))
  }

  ghost function Exec(s: State, acts: seq<Action>): State
    requires IsRun(s, acts)
    decreases |acts|
  {
    if acts == [] then s else Exec(Step(s, acts[0]), acts[1..])
  }

  // ---------------------------------------------------------------------------------------------
  // The invariant
  // ---------------------------------------------------------------------------------------------

  function Nth(list: seq<nat>, i: nat): Ptr {
    if i < |list| then Some(list[i]) else None
  }

  ghost predicate Linked(nodes: seq<Node>, list: seq<nat>) {
    && (forall i | 0 <= i < |list| :: list[i] < |nodes|)
    && forall i {:trigger nodes[list[i]]} | 0 <= i < |list| :: nodes[list[i]].next == Nth(list, i + 1)
  }

  /** The pointers from the head run through the list, and end. */
  ghost predicate ListOk(nodes: seq<Node>, head: Ptr, list: seq<nat>) {
    && head == Nth(list, 0)
    && Linked(nodes, list)
    && forall i, j | 0 <= i < j < |list| :: list[i] != list[j]
  }

  ghost predicate Owns(pc: Pc) {
    pc.LoadHead? || pc.SetNext? || pc.SwapHead?
  }

  ghost predicate ThreadOk(nodes: seq<Node>, list: seq<nat>, pc: Pc) {
    match pc
    case Idle => true
    case Scan(_, p) => p.Some? ==> p.value in list
    case Claim(_, n) => n in list
    case Advance(_, n) => n in list
    case LoadHead(v, n) => n < |nodes| && n !in list && nodes[n].value == v
    case SetNext(v, n, _) => n < |nodes| && n !in list && nodes[n].value == v
    case SwapHead(v, n, seen) => n < |nodes| && n !in list && nodes[n] == Node(v, seen)
    case ReadValue(n) => n in list
    case SwapValue(n, v) => n in list && n < |nodes| && (v != DEFAULT ==> nodes[n].value != DEFAULT)
  }

  ghost predicate ThreadsOk(nodes: seq<Node>, list: seq<nat>, threads: seq<Pc>) {
    && (forall t | 0 <= t < |threads| :: ThreadOk(nodes, list, threads[t]))
    && forall t, u | 0 <= t < u < |threads| && Owns(threads[t]) && Owns(threads[u]) ::
         threads[t].node != threads[u].node
  }

  /** Completed puts of real values and nodes that hold one correspond one to one. */
  ghost predicate DoneOk(nodes: seq<Node>, list: seq<nat>, done: seq<Put>) {
    && (forall i | 0 <= i < |done| :: done[i].node in list && done[i].node < |nodes|)
    && (forall i | 0 <= i < |done| && done[i].value != DEFAULT :: nodes[done[i].node].value == done[i].value)
    && (forall i, j | 0 <= i < j < |done| && done[i].value != DEFAULT && done[j].value != DEFAULT ::
          done[i].node != done[j].node)
    && forall n | n in list && n < |nodes| && nodes[n].value != DEFAULT :: Put(nodes[n].value, n) in done
  }

  ghost predicate Inv(s: State) {
    ListOk(s.nodes, s.head, s.list) && ThreadsOk(s.nodes, s.list, s.threads) && DoneOk(s.nodes, s.list, s.done)
  }

  lemma ThreadsWith(nodes: seq<Node>, list: seq<nat>, threads: seq<Pc>, t: nat, pc: Pc)
    requires ThreadsOk(nodes, list, threads) && t < |threads| && ThreadOk(nodes, list, pc)
    requires Owns(pc) ==> forall u | 0 <= u < |threads| && u != t && Owns(threads[u]) :: threads[u].node != pc.node
    ensures ThreadsOk(nodes, list, threads[t := pc])
  {
  }

  lemma NewNode(s: State, t: nat)
    requires Inv(s) && t < |s.threads| && s.threads[t].Scan? && s.threads[t].at.None?
    ensures Inv(ThreadStep(s, t))
  {
    var nodes := s.nodes + [Node(s.threads[t].value, None)];
    forall u | 0 <= u < |s.threads| ensures ThreadOk(nodes, s.list, s.threads[u]) {
      assert ThreadOk(s.nodes, s.list, s.threads[u]);
    }
    assert |s.nodes| !in s.list;
    forall u | 0 <= u < |s.threads| && Owns(s.threads[u]) ensures s.threads[u].node < |s.nodes| {
      assert ThreadOk(s.nodes, s.list, s.threads[u]);
    }
    ThreadsWith(nodes, s.list, s.threads, t, LoadHead(s.threads[t].value, |s.nodes|));
  }

  /** Filling an empty node of the list disturbs no other thread. */
  lemma FillKeepsThreads(nodes: seq<Node>, list: seq<nat>, threads: seq<Pc>, n: nat, v: int)
    requires ThreadsOk(nodes, list, threads) && n in list && n < |nodes| && nodes[n].value == DEFAULT
    ensures ThreadsOk(SetValue(nodes, n, v), list, threads)
  {
    forall t | 0 <= t < |threads| ensures ThreadOk(SetValue(nodes, n, v), list, threads[t]) {
      assert ThreadOk(nodes, list, threads[t]);
    }
  }

  lemma FillKeepsDone(nodes: seq<Node>, list: seq<nat>, done: seq<Put>, n: nat, v: int)
    requires DoneOk(nodes, list, done) && n in list && n < |nodes| && nodes[n].value == DEFAULT
    ensures DoneOk(SetValue(nodes, n, v), list, done + [Put(v, n)])
  {
    var nodes', done' := SetValue(nodes, n, v), done + [Put(v, n)];
    forall i | 0 <= i < |done| && done[i].value != DEFAULT ensures done[i].node != n {
      assert nodes[done[i].node].value == done[i].value;
    }
    forall m | m in list && m < |nodes| && nodes'[m].value != DEFAULT ensures Put(nodes'[m].value, m) in done' {
      if m == n { assert done'[|done|] == Put(v, n); } else { assert Put(nodes[m].value, m) in done; }
    }
  }

  lemma ClaimNode(s: State, t: nat)
    requires Inv(s) && t < |s.threads| && s.threads[t].Claim?
    ensures Inv(ThreadStep(s, t))
  {
    var v, n := s.threads[t].value, s.threads[t].node;
    assert ThreadOk(s.nodes, s.list, s.threads[t]);
    if ValueOf(s, n) == DEFAULT {
      FillKeepsThreads(s.nodes, s.list, s.threads, n, v);
      FillKeepsDone(s.nodes, s.list, s.done, n, v);
      ThreadsWith(SetValue(s.nodes, n, v), s.list, s.threads, t, Idle);
    } else {
      ThreadsWith(s.nodes, s.list, s.threads, t, Advance(v, n));
    }
  }

  lemma LinkNode(s: State, t: nat)
    requires Inv(s) && t < |s.threads| && s.threads[t].SetNext?
    ensures Inv(ThreadStep(s, t))
  {
    var SetNext(v, n, seen) := s.threads[t];
    var nodes, threads := SetLink(s.nodes, n, seen), s.threads[t := SwapHead(v, n, seen)];
    assert ThreadOk(s.nodes, s.list, s.threads[t]);
    forall u | 0 <= u < |threads| ensures ThreadOk(nodes, s.list, threads[u]) {
      assert ThreadOk(s.nodes, s.list, s.threads[u]);
      assert u != t && Owns(s.threads[u]) ==> s.threads[u].node != n;
    }
  }

  lemma PushKeepsThreads(nodes: seq<Node>, list: seq<nat>, threads: seq<Pc>, t: nat)
    requires ThreadsOk(nodes, list, threads) && t < |threads| && threads[t].SwapHead?
    ensures ThreadsOk(nodes, [threads[t].node] + list, threads[t := Idle])
  {
    var n, threads' := threads[t].node, threads[t := Idle];
    forall u | 0 <= u < |threads| ensures ThreadOk(nodes, [n] + list, threads'[u]) {
      assert ThreadOk(nodes, list, threads[u]);
      assert u != t && Owns(threads[u]) ==> threads[u].node != n;
    }
  }

  lemma PushKeepsList(nodes: seq<Node>, head: Ptr, list: seq<nat>, n: nat)
    requires ListOk(nodes, head, list) && n < |nodes| && n !in list && nodes[n].next == head
    ensures ListOk(nodes, Some(n), [n] + list)
  {
    var list' := [n] + list;
    forall i | 0 <= i < |list'| ensures list'[i] < |nodes| && nodes[list'[i]].next == Nth(list', i + 1) {
      if i > 0 { assert list'[i] == list[i - 1]; }
    }
  }

  lemma PushKeepsDone(nodes: seq<Node>, list: seq<nat>, done: seq<Put>, n: nat)
    requires DoneOk(nodes, list, done) && n < |nodes| && n !in list
    ensures DoneOk(nodes, [n] + list, done + [Put(nodes[n].value, n)])
  {
    var list', done' := [n] + list, done + [Put(nodes[n].value, n)];
    forall m | m in list' && m < |nodes| && nodes[m].value != DEFAULT ensures Put(nodes[m].value, m) in done' {
      if m == n { assert done'[|done|] == Put(nodes[n].value, n); } else { assert Put(nodes[m].value, m) in done; }
    }
  }

  lemma PushNode(s: State, t: nat)
    requires Inv(s) && t < |s.threads| && s.threads[t].SwapHead?
    ensures Inv(ThreadStep(s, t))
  {
    var SwapHead(v, n, seen) := s.threads[t];
    assert ThreadOk(s.nodes, s.list, s.threads[t]);
    if s.head == seen {
      PushKeepsThreads(s.nodes, s.list, s.threads, t);
      PushKeepsList(s.nodes, s.head, s.list, n);
      PushKeepsDone(s.nodes, s.list, s.done, n);
    } else {
      ThreadsWith(s.nodes, s.list, s.threads, t, LoadHead(v, n));
    }
  }

  lemma NextInList(s: State, n: nat)
    requires ListOk(s.nodes, s.head, s.list) && n in s.list
    ensures n < |s.nodes| && (NextOf(s, n).Some? ==> NextOf(s, n).value in s.list)
  {
    var i :| 0 <= i < |s.list| && s.list[i] == n;
    assert s.nodes[s.list[i]].next == Nth(s.list, i + 1);
  }

  /** A dismissal changes nothing: an empty node stays empty and a full one stays full. */
  lemma DismissDoesNothing(s: State, t: nat)
    requires Inv(s) && t < |s.threads| && s.threads[t].SwapValue?
    ensures ThreadStep(s, t) == At(s, t, Idle)
  {
    assert ThreadOk(s.nodes, s.list, s.threads[t]);
    assert ThreadStep(s, t).nodes == s.nodes;
  }

  /** A whole dismissal: it reads the value, swaps, and leaves everything as it was. */
  lemma DismissalRuns(s: State, t: nat, n: nat)
    requires Inv(s) && Enabled(s, StartDismiss(t, n))
    ensures var s1 := Step(s, StartDismiss(t, n));
            && Enabled(s1, Continue(t)) && n < |s.nodes|
            && var s2 := Step(s1, Continue(t));
               && s2 == At(s, t, SwapValue(n, s.nodes[n].value)) && Enabled(s2, Continue(t))
               && Step(s2, Continue(t)) == s
  {
    var s1 := Step(s, StartDismiss(t, n));
    StepKeepsInv(s, StartDismiss(t, n));
    NextInList(s, n);
    var s2 := Step(s1, Continue(t));
    assert s2.threads == s.threads[t := SwapValue(n, s.nodes[n].value)];
    StepKeepsInv(s1, Continue(t));
    DismissDoesNothing(s2, t);
    assert s2.threads[t := Idle] == s.threads;
  }

  lemma ThreadStepKeepsInv(s: State, t: nat)
    requires Inv(s) && t < |s.threads|
    ensures Inv(ThreadStep(s, t))
  {
    assert ThreadOk(s.nodes, s.list, s.threads[t]);
    match s.threads[t]
    case Idle =>
    case Scan(v, None) => NewNode(s, t);
    case Scan(v, Some(n)) =>
      ThreadsWith(s.nodes, s.list, s.threads, t, Claim(v, n));
      ThreadsWith(s.nodes, s.list, s.threads, t, Advance(v, n));
    case Claim(_, _) => ClaimNode(s, t);
    case Advance(v, n) =>
      NextInList(s, n);
      ThreadsWith(s.nodes, s.list, s.threads, t, Scan(v, NextOf(s, n)));
    case LoadHead(v, n) => ThreadsWith(s.nodes, s.list, s.threads, t, SetNext(v, n, s.head));
    case SetNext(_, _, _) => LinkNode(s, t);
    case SwapHead(_, _, _) => PushNode(s, t);
    case ReadValue(n) =>
      NextInList(s, n);
      ThreadsWith(s.nodes, s.list, s.threads, t, SwapValue(n, ValueOf(s, n)));
    case SwapValue(_, _) =>
      DismissDoesNothing(s, t);
      ThreadsWith(s.nodes, s.list, s.threads, t, Idle);
  }

  lemma StepKeepsInv(s: State, a: Action)
    requires Inv(s) && Enabled(s, a)
    ensures Inv(Step(s, a))
  {
    match a
    case StartPut(t, v) => ThreadsWith(s.nodes, s.list, s.threads, t, Scan(v, s.head));
    case StartDismiss(t, n) => ThreadsWith(s.nodes, s.list, s.threads, t, ReadValue(n));
    case Continue(t) => ThreadStepKeepsInv(s, t);
  }

  lemma {:induction false} RunKeepsInv(s: State, acts: seq<Action>)
    requires Inv(s) && IsRun(s, acts)
    ensures Inv(Exec(s, acts))
    decreases |acts|
  {
    if acts != [] {
      StepKeepsInv(s, acts[0]);
      RunKeepsInv(Step(s, acts[0]), acts[1..]);
    }
  }

  // ---------------------------------------------------------------------------------------------
  // What the list promises
  // ---------------------------------------------------------------------------------------------

  ghost predicate Reachable(s: State) {
    exists threads: nat, acts: seq<Action> | IsRun(Initial(threads), acts) :: s == Exec(Initial(threads), acts)
  }

  lemma ReachableInv(s: State)
    requires Reachable(s)
    ensures Inv(s)
  {
    var threads: nat, acts: seq<Action> :| IsRun(Initial(threads), acts) && s == Exec(Initial(threads), acts);
    RunKeepsInv(Initial(threads), acts);
  }

  /** The node that is k pointers away from p. */
  function Follow(nodes: seq<Node>, p: Ptr, k: nat): Ptr
    decreases k
  {
    if p.None? || p.value >= |nodes| then None
    else if k == 0 then p
    else Follow(nodes, nodes[p.value].next, k - 1)
  }

  lemma {:induction false} FollowIsNth(nodes: seq<Node>, list: seq<nat>, i: nat, k: nat)
    requires Linked(nodes, list)
    ensures Follow(nodes, Nth(list, i), k) == Nth(list, i + k)
    decreases k
  {
    if i < |list| && k > 0 {
      assert nodes[list[i]].next == Nth(list, i + 1);
      FollowIsNth(nodes, list, i + 1, k - 1);
    }
  }

  /** Following the pointers from the head never comes back to a node, and ends. */
  lemma ListIsAcyclic(s: State, i: nat, j: nat)
    requires Reachable(s) && i < j
    ensures Follow(s.nodes, s.head, i).Some? ==> Follow(s.nodes, s.head, i) != Follow(s.nodes, s.head, j)
    ensures Follow(s.nodes, s.head, |s.list|).None?
  {
    ReachableInv(s);
    FollowIsNth(s.nodes, s.list, 0, i);
    FollowIsNth(s.nodes, s.list, 0, j);
    FollowIsNth(s.nodes, s.list, 0, |s.list|);
  }

  /**
    Every completed put of a real value stays reachable from the head, in the node it was given and with
    its value, in every continuation of the run.
   */
  lemma PutsStayReachable(s: State, acts: seq<Action>, p: Put) returns (k: nat)
    requires Reachable(s) && p in s.done && p.value != DEFAULT && IsRun(s, acts)
    ensures var s' := Exec(s, acts);
            Follow(s'.nodes, s'.head, k) == Some(p.node) && p.node < |s'.nodes| && s'.nodes[p.node].value == p.value
  {
    ReachableGoesOn(s, acts);
    DoneOnlyGrows(s, acts);
    k := PutIsReachable(Exec(s, acts), p);
  }

  lemma PutIsReachable(s: State, p: Put) returns (k: nat)
    requires Reachable(s) && p in s.done && p.value != DEFAULT
    ensures Follow(s.nodes, s.head, k) == Some(p.node) && p.node < |s.nodes| && s.nodes[p.node].value == p.value
  {
    assert ListOk(s.nodes, s.head, s.list) && DoneOk(s.nodes, s.list, s.done) by { ReachableInv(s); }
    k := PutIsLinked(s.nodes, s.head, s.list, s.done, p);
  }

  lemma PutIsLinked(nodes: seq<Node>, head: Ptr, list: seq<nat>, done: seq<Put>, p: Put)
    returns (k: nat)
    requires ListOk(nodes, head, list) && DoneOk(nodes, list, done) && p in done && p.value != DEFAULT
    ensures Follow(nodes, head, k) == Some(p.node) && p.node < |nodes| && nodes[p.node].value == p.value
  {
    k := PlaceOf(nodes, list, done, p);
    assert Follow(nodes, Nth(list, 0), k) == Nth(list, k) by { FollowIsNth(nodes, list, 0, k); }
  }

  lemma {:induction false} RunsJoin(s: State, a: seq<Action>, b: seq<Action>)
    requires IsRun(s, a) && IsRun(Exec(s, a), b)
    ensures IsRun(s, a + b) && Exec(s, a + b) == Exec(Exec(s, a), b)
    decreases |a|
  {
    if a == [] {
      assert a + b == b;
    } else {
      assert (a + b)[1..] == a[1..] + b;
      RunsJoin(Step(s, a[0]), a[1..], b);
    }
  }

  lemma ReachableGoesOn(s: State, acts: seq<Action>)
    requires Reachable(s) && IsRun(s, acts)
    ensures Reachable(Exec(s, acts))
  {
    var threads: nat, before: seq<Action> :| IsRun(Initial(threads), before) && s == Exec(Initial(threads), before);
    RunsJoin(Initial(threads), before, acts);
  }

  lemma PlaceOf(nodes: seq<Node>, list: seq<nat>, done: seq<Put>, p: Put) returns (k: nat)
    requires DoneOk(nodes, list, done) && p in done
    ensures k < |list| && list[k] == p.node && p.node < |nodes|
    ensures p.value != DEFAULT ==> nodes[p.node].value == p.value
  {
    var i :| 0 <= i < |done| && done[i] == p;
    assert done[i].node in list;
    k :| 0 <= k < |list| && list[k] == p.node;
  }

  /** No two completed puts of real values share a node, and every real value in the list was put. */
  lemma PutsAndNodesCorrespond(s: State)
    requires Reachable(s)
    ensures forall i, j | 0 <= i < j < |s.done| && s.done[i].value != DEFAULT && s.done[j].value != DEFAULT ::
              s.done[i].node != s.done[j].node
    ensures forall k: nat, n: nat | Follow(s.nodes, s.head, k) == Some(n) ::
              n < |s.nodes| && (s.nodes[n].value != DEFAULT ==> Put(s.nodes[n].value, n) in s.done)
  {
    assert ListOk(s.nodes, s.head, s.list) && DoneOk(s.nodes, s.list, s.done) by { ReachableInv(s); }
    forall k: nat, n: nat | Follow(s.nodes, s.head, k) == Some(n)
      ensures n < |s.nodes| && (s.nodes[n].value != DEFAULT ==> Put(s.nodes[n].value, n) in s.done)
    {
      LinkedWasPut(s.nodes, s.head, s.list, s.done, k, n);
    }
  }

  lemma LinkedWasPut(nodes: seq<Node>, head: Ptr, list: seq<nat>, done: seq<Put>, k: nat, n: nat)
    requires ListOk(nodes, head, list) && DoneOk(nodes, list, done) && Follow(nodes, head, k) == Some(n)
    ensures n < |nodes| && (nodes[n].value != DEFAULT ==> Put(nodes[n].value, n) in done)
  {
    assert Nth(list, k) == Some(n) by { FollowIsNth(nodes, list, 0, k); }
    ListedWasPut(nodes, list, done, k, n);
  }

  lemma ListedWasPut(nodes: seq<Node>, list: seq<nat>, done: seq<Put>, k: nat, n: nat)
    requires Linked(nodes, list) && DoneOk(nodes, list, done) && Nth(list, k) == Some(n)
    ensures n < |nodes| && (nodes[n].value != DEFAULT ==> Put(nodes[n].value, n) in done)
  {
    assert list[k] == n;
  }

  /** History is never rewritten. */
  lemma {:induction false} DoneOnlyGrows(s: State, acts: seq<Action>)
    requires IsRun(s, acts)
    ensures s.done <= Exec(s, acts).done
    decreases |acts|
  {
    if acts != [] { DoneOnlyGrows(Step(s, acts[0]), acts[1..]); }
  }

  // ---------------------------------------------------------------------------------------------
  // Nothing that is put gets lost
  // ---------------------------------------------------------------------------------------------

  /** How often callers put the value in a run. */
  function TimesAsked(acts: seq<Action>, v: int): nat
    decreases |acts|
  {
    if acts == [] then 0
    else (if acts[0].StartPut? && acts[0].value == v then 1 else 0) + TimesAsked(acts[1..], v)
  }

  /** The thread is in a put of the value, which has not returned. */
  predicate Putting(pc: Pc, v: int) {
    !pc.Idle? && !pc.ReadValue? && !pc.SwapValue? && pc.value == v
  }

  function TimesUnderway(threads: seq<Pc>, v: int): nat {
    if threads == [] then 0 else (if Putting(threads[0], v) then 1 else 0) + TimesUnderway(threads[1..], v)
  }

  function TimesReturned(done: seq<Put>, v: int): nat {
    if done == [] then 0
    else TimesReturned(done[..|done| - 1], v) + if done[|done| - 1].value == v then 1 else 0
  }

  lemma {:induction false} UnderwayChanges(threads: seq<Pc>, t: nat, pc: Pc, v: int)
    requires t < |threads|
    ensures TimesUnderway(threads[t := pc], v)
         == TimesUnderway(threads, v) - (if Putting(threads[t], v) then 1 else 0) + if Putting(pc, v) then 1 else 0
  {
    if t == 0 {
      assert threads[0 := pc][1..] == threads[1..];
    } else {
      assert threads[t := pc][1..] == threads[1..][t - 1 := pc];
      UnderwayChanges(threads[1..], t - 1, pc, v);
    }
  }

  lemma ReturnedOneMore(done: seq<Put>, p: Put, v: int)
    ensures TimesReturned(done + [p], v) == TimesReturned(done, v) + if p.value == v then 1 else 0
  {
    assert (done + [p])[..|done|] == done;
  }

  /** A step keeps the value of its put, or returns with the put in the history. */
  lemma OwnPutGoesOn(s: State, t: nat, v: int) returns (n: nat)
    requires t < |s.threads|
    ensures var pc, s' := s.threads[t], ThreadStep(s, t);
            && |s'.threads| == |s.threads| && s'.threads == s.threads[t := s'.threads[t]]
            && if s'.done == s.done then Putting(s'.threads[t], v) == Putting(pc, v)
               else && !pc.Idle? && !pc.ReadValue? && !pc.SwapValue?
                    && s'.threads[t].Idle? && s'.done == s.done + [Put(pc.value, n)]
  {
    var pc := s.threads[t];
    n := if pc.Claim? || pc.SwapHead? then pc.node else 0;
  }

  lemma ThreadStepLosesNothing(s: State, t: nat, v: int)
    requires t < |s.threads|
    ensures var s' := ThreadStep(s, t);
            TimesReturned(s'.done, v) + TimesUnderway(s'.threads, v)
            == TimesReturned(s.done, v) + TimesUnderway(s.threads, v)
  {
    var pc, s' := s.threads[t], ThreadStep(s, t);
    var n := OwnPutGoesOn(s, t, v);
    UnderwayChanges(s.threads, t, s'.threads[t], v);
    if s'.done != s.done { ReturnedOneMore(s.done, Put(pc.value, n), v); }
  }

  lemma StepLosesNothing(s: State, a: Action, v: int)
    requires Enabled(s, a)
    ensures var s' := Step(s, a);
            TimesReturned(s'.done, v) + TimesUnderway(s'.threads, v)
            == TimesReturned(s.done, v) + TimesUnderway(s.threads, v)
               + if a.StartPut? && a.value == v then 1 else 0
  {
    match a
    case StartPut(t, x) => UnderwayChanges(s.threads, t, Scan(x, s.head), v);
    case StartDismiss(t, n) => UnderwayChanges(s.threads, t, ReadValue(n), v);
    case Continue(t) => ThreadStepLosesNothing(s, t, v);
  }

  lemma {:induction false} RunLosesNothing(s: State, acts: seq<Action>, v: int)
    requires IsRun(s, acts)
    ensures var s' := Exec(s, acts);
            TimesReturned(s'.done, v) + TimesUnderway(s'.threads, v)
            == TimesReturned(s.done, v) + TimesUnderway(s.threads, v) + TimesAsked(acts, v)
    decreases |acts|
  {
    if acts != [] {
      StepLosesNothing(s, acts[0], v);
      RunLosesNothing(Step(s, acts[0]), acts[1..], v);
    }
  }

  lemma {:induction false} NobodyIsPutting(threads: seq<Pc>, v: int)
    requires forall t | 0 <= t < |threads| :: !Putting(threads[t], v)
    ensures TimesUnderway(threads, v) == 0
  {
    if threads != [] { NobodyIsPutting(threads[1..], v); }
  }

  /** Each put that was started is underway or has returned, with its value in the history, and nothing else has. */
  lemma EveryPutIsAccountedFor(threads: nat, acts: seq<Action>, v: int)
    requires IsRun(Initial(threads), acts)
    ensures var s := Exec(Initial(threads), acts);
            TimesAsked(acts, v) == TimesReturned(s.done, v) + TimesUnderway(s.threads, v)
  {
    RunLosesNothing(Initial(threads), acts, v);
    NobodyIsPutting(Initial(threads).threads, v);
  }

  // ---------------------------------------------------------------------------------------------
  // What is found in the list
  // ---------------------------------------------------------------------------------------------

  /** How often the value is met on the way along the pointers, in k nodes at most. */
  function TimesFound(nodes: seq<Node>, p: Ptr, k: nat, v: int): nat
    decreases k
  {
    if k == 0 || p.None? || p.value >= |nodes| then 0
    else (if nodes[p.value].value == v then 1 else 0) + TimesFound(nodes, nodes[p.value].next, k - 1, v)
  }

  /** How many nodes of the list hold the value. */
  function TimesHeld(nodes: seq<Node>, list: seq<nat>, v: int): nat {
    if list == [] then 0
    else (if list[0] < |nodes| && nodes[list[0]].value == v then 1 else 0) + TimesHeld(nodes, list[1..], v)
  }

  lemma {:induction false} FoundIsHeld(nodes: seq<Node>, list: seq<nat>, i: nat, v: int)
    requires Linked(nodes, list) && i <= |list|
    ensures TimesFound(nodes, Nth(list, i), |list| - i, v) == TimesHeld(nodes, list[i..], v)
    decreases |list| - i
  {
    if i < |list| {
      assert nodes[list[i]].next == Nth(list, i + 1);
      assert list[i..][1..] == list[i + 1..];
      FoundIsHeld(nodes, list, i + 1, v);
    }
  }

  lemma {:induction false} HeldFrame(nodes: seq<Node>, nodes': seq<Node>, list: seq<nat>, v: int)
    requires |nodes| <= |nodes'|
    requires forall n | n in list :: n < |nodes| && nodes'[n].value == nodes[n].value
    ensures TimesHeld(nodes', list, v) == TimesHeld(nodes, list, v)
  {
    if list != [] { HeldFrame(nodes, nodes', list[1..], v); }
  }

  /** Filling an empty node of the list. */
  lemma {:induction false} HeldOneMore(nodes: seq<Node>, list: seq<nat>, n: nat, x: int, v: int)
    requires forall i | 0 <= i < |list| :: list[i] < |nodes|
    requires forall i, j | 0 <= i < j < |list| :: list[i] != list[j]
    requires n in list && nodes[n].value == DEFAULT && v != DEFAULT
    ensures TimesHeld(SetValue(nodes, n, x), list, v) == TimesHeld(nodes, list, v) + if x == v then 1 else 0
  {
    if list[0] == n {
      HeldFrame(nodes, SetValue(nodes, n, x), list[1..], v);
    } else {
      HeldOneMore(nodes, list[1..], n, x, v);
    }
  }

  lemma ClaimHolds(s: State, t: nat, v: int)
    requires ListOk(s.nodes, s.head, s.list) && t < |s.threads| && ThreadOk(s.nodes, s.list, s.threads[t])
    requires s.threads[t].Claim? && v != DEFAULT
    ensures HoldsMore(s, ThreadStep(s, t), v)
  {
    var Claim(x, n) := s.threads[t];
    if ValueOf(s, n) == DEFAULT {
      HeldOneMore(s.nodes, s.list, n, x, v);
      ReturnedOneMore(s.done, Put(x, n), v);
    }
  }

  lemma PushHolds(s: State, t: nat, v: int)
    requires t < |s.threads| && ThreadOk(s.nodes, s.list, s.threads[t]) && s.threads[t].SwapHead?
    ensures HoldsMore(s, ThreadStep(s, t), v)
  {
    var SwapHead(x, n, seen) := s.threads[t];
    if s.head == seen {
      ReturnedOneMore(s.done, Put(x, n), v);
      assert ([n] + s.list)[1..] == s.list;
    }
  }

  lemma OthersHold(s: State, t: nat, v: int)
    requires ListOk(s.nodes, s.head, s.list) && t < |s.threads| && ThreadOk(s.nodes, s.list, s.threads[t])
    requires !s.threads[t].Claim? && !s.threads[t].SwapHead? && !s.threads[t].SwapValue?
    ensures HoldsMore(s, ThreadStep(s, t), v)
  {
    HeldFrame(s.nodes, ThreadStep(s, t).nodes, s.list, v);
  }

  /** The list gets the value exactly as often as a put of it returns. */
  ghost predicate HoldsMore(s: State, s': State, v: int) {
    TimesHeld(s'.nodes, s'.list, v) - TimesHeld(s.nodes, s.list, v)
    == TimesReturned(s'.done, v) - TimesReturned(s.done, v)
  }

  lemma ThreadStepHolds(s: State, t: nat, v: int)
    requires Inv(s) && t < |s.threads| && v != DEFAULT
    ensures HoldsMore(s, ThreadStep(s, t), v)
  {
    assert ThreadOk(s.nodes, s.list, s.threads[t]);
    match s.threads[t]
    case Claim(_, _) => ClaimHolds(s, t, v);
    case SwapHead(_, _, _) => PushHolds(s, t, v);
    case SwapValue(_, _) => DismissDoesNothing(s, t);
    case _ => OthersHold(s, t, v);
  }

  lemma {:induction false} RunHolds(s: State, acts: seq<Action>, v: int)
    requires Inv(s) && IsRun(s, acts) && v != DEFAULT
    requires TimesHeld(s.nodes, s.list, v) == TimesReturned(s.done, v)
    ensures var s' := Exec(s, acts); Inv(s') && TimesHeld(s'.nodes, s'.list, v) == TimesReturned(s'.done, v)
    decreases |acts|
  {
    if acts != [] {
      StepKeepsInv(s, acts[0]);
      if acts[0].Continue? { ThreadStepHolds(s, acts[0].thread, v); }
      RunHolds(Step(s, acts[0]), acts[1..], v);
    }
  }

  /**
    Whatever the interleaving, whoever follows the pointers finds each real value exactly as often as it
    was put by a put that has returned: once all have, as often as it was put.
   */
  lemma EveryPutIsFound(threads: nat, acts: seq<Action>, v: int)
    requires IsRun(Initial(threads), acts) && v != DEFAULT
    ensures var s := Exec(Initial(threads), acts);
            TimesFound(s.nodes, s.head, |s.list|, v) + TimesUnderway(s.threads, v) == TimesAsked(acts, v)
  {
    var s := Exec(Initial(threads), acts);
    RunHolds(Initial(threads), acts, v);
    EveryPutIsAccountedFor(threads, acts, v);
    FoundIsHeld(s.nodes, s.list, 0, v);
    assert s.list[0..] == s.list;
  }

  // ---------------------------------------------------------------------------------------------
  // Empty nodes are used again
  // ---------------------------------------------------------------------------------------------

  ghost predicate Full(nodes: seq<Node>, n: nat) {
    n < |nodes| && nodes[n].value != DEFAULT
  }

  /** The first k nodes of the list as it was are full. */
  ghost predicate FullTo(nodes: seq<Node>, was: seq<nat>, k: nat)
    requires k <= |was|
  {
    forall i | 0 <= i < k :: Full(nodes, was[i])
  }

  /** What a thread that began its put with that list has found out about it. */
  ghost predicate Seen(nodes: seq<Node>, was: seq<nat>, pc: Pc) {
    match pc
    case Scan(_, None) => FullTo(nodes, was, |was|)
    case Scan(_, Some(n)) => exists k | 0 <= k < |was| :: was[k] == n && FullTo(nodes, was, k)
    case Claim(_, n) => exists k | 0 <= k < |was| :: was[k] == n && FullTo(nodes, was, k)
    case Advance(_, n) => exists k | 0 <= k < |was| :: was[k] == n && FullTo(nodes, was, k + 1)
    case LoadHead(_, _) => FullTo(nodes, was, |was|)
    case SetNext(_, _, _) => FullTo(nodes, was, |was|)
    case SwapHead(_, _, _) => FullTo(nodes, was, |was|)
    case _ => true
  }

  /** The list as it was is still the end of the list. */
  ghost predicate EndsIn(list: seq<nat>, was: seq<nat>) {
    |was| <= |list| && list[|list| - |was|..] == was
  }

  /** Full nodes stay full, and the list only grows at its front. */
  lemma StepKeepsFull(s: State, a: Action)
    requires Inv(s) && Enabled(s, a)
    ensures var s' := Step(s, a);
            && |s.nodes| <= |s'.nodes| && (s'.list == s.list || (|s'.list| > 0 && s'.list[1..] == s.list))
            && forall n | Full(s.nodes, n) :: Full(s'.nodes, n)
  {
    if a.Continue? && s.threads[a.thread].SwapValue? { DismissDoesNothing(s, a.thread); }
    if a.Continue? && s.threads[a.thread].SwapHead? {
      assert ThreadOk(s.nodes, s.list, s.threads[a.thread]);
      assert ([s.threads[a.thread].node] + s.list)[1..] == s.list;
    }
  }

  lemma EndsGrow(list: seq<nat>, list': seq<nat>, was: seq<nat>)
    requires EndsIn(list, was) && (list' == list || (|list'| > 0 && list'[1..] == list))
    ensures EndsIn(list', was)
  {
    if list' != list { assert list'[|list'| - |was|..] == list[|list| - |was|..]; }
  }

  lemma SeenGrows(nodes: seq<Node>, nodes': seq<Node>, was: seq<nat>, pc: Pc)
    requires Seen(nodes, was, pc) && forall n | Full(nodes, n) :: Full(nodes', n)
    ensures Seen(nodes', was, pc)
  {
  }

  /** The node after the k-th of the list as it was. */
  lemma NextOfOld(s: State, was: seq<nat>, k: nat)
    requires ListOk(s.nodes, s.head, s.list) && EndsIn(s.list, was) && k < |was|
    ensures NextOf(s, was[k]) == Nth(was, k + 1)
  {
    var i := |s.list| - |was| + k;
    assert s.list[i] == s.list[|s.list| - |was|..][k] == was[k];
    assert s.nodes[s.list[i]].next == Nth(s.list, i + 1);
    if k + 1 < |was| { assert s.list[i + 1] == s.list[|s.list| - |was|..][k + 1]; }
  }

  /** A thread that goes on past a node has seen it full. */
  lemma PastFull(nodes: seq<Node>, was: seq<nat>, n: nat)
    requires Full(nodes, n) && exists k | 0 <= k < |was| :: was[k] == n && FullTo(nodes, was, k)
    ensures exists k | 0 <= k < |was| :: was[k] == n && FullTo(nodes, was, k + 1)
  {
    var k :| 0 <= k < |was| && was[k] == n && FullTo(nodes, was, k);
    assert FullTo(nodes, was, k + 1);
  }

  lemma AdvanceSees(s: State, v: int, n: nat, was: seq<nat>)
    requires ListOk(s.nodes, s.head, s.list) && EndsIn(s.list, was) && Seen(s.nodes, was, Advance(v, n))
    ensures Seen(s.nodes, was, Scan(v, NextOf(s, n)))
  {
    var k :| 0 <= k < |was| && was[k] == n && FullTo(s.nodes, was, k + 1);
    NextOfOld(s, was, k);
  }

  /** The thread itself goes on only past nodes that are full. */
  lemma OwnStepSees(s: State, t: nat, was: seq<nat>)
    requires ListOk(s.nodes, s.head, s.list) && EndsIn(s.list, was)
    requires t < |s.threads| && Seen(s.nodes, was, s.threads[t]) && ThreadOk(s.nodes, s.list, s.threads[t])
    requires forall n | Full(s.nodes, n) :: Full(ThreadStep(s, t).nodes, n)
    ensures Seen(ThreadStep(s, t).nodes, was, ThreadStep(s, t).threads[t])
  {
    var nodes := ThreadStep(s, t).nodes;
    match s.threads[t]
    case Scan(v, Some(n)) => if ValueOf(s, n) != DEFAULT { PastFull(s.nodes, was, n); }
    case Claim(v, n) => if ValueOf(s, n) != DEFAULT { PastFull(s.nodes, was, n); }
    case Advance(v, n) => AdvanceSees(s, v, n, was);
    case Idle =>
    case ReadValue(_) =>
    case SwapValue(_, _) =>
    case pc => SeenGrows(s.nodes, nodes, was, pc);
  }

  lemma OthersStay(s: State, a: Action, t: nat)
    requires Enabled(s, a) && t < |s.threads| && !s.threads[t].Idle? && a != Continue(t)
    ensures t < |Step(s, a).threads| && Step(s, a).threads[t] == s.threads[t]
  {
  }

  lemma StepSees(s: State, a: Action, t: nat, was: seq<nat>)
    requires Inv(s) && Enabled(s, a) && EndsIn(s.list, was)
    requires t < |s.threads| && !s.threads[t].Idle? && Seen(s.nodes, was, s.threads[t])
    ensures EndsIn(Step(s, a).list, was) && t < |Step(s, a).threads|
    ensures Seen(Step(s, a).nodes, was, Step(s, a).threads[t])
  {
    var s' := Step(s, a);
    StepKeepsFull(s, a);
    EndsGrow(s.list, s'.list, was);
    assert ListOk(s.nodes, s.head, s.list) && ThreadOk(s.nodes, s.list, s.threads[t]);
    if a == Continue(t) {
      OwnStepSees(s, t, was);
    } else {
      OthersStay(s, a, t);
      SeenGrows(s.nodes, s'.nodes, was, s.threads[t]);
    }
  }

  /** In each state of the run but the last, the thread is busy. */
  ghost predicate Busy(s: State, acts: seq<Action>, t: nat)
    requires IsRun(s, acts)
    decreases |acts|
  {
    acts != [] ==> t < |s.threads| && !s.threads[t].Idle? && Busy(Step(s, acts[0]), acts[1..], t)
  }

  lemma {:induction false} RunSees(s: State, acts: seq<Action>, t: nat, was: seq<nat>)
    requires Inv(s) && IsRun(s, acts) && Busy(s, acts, t) && EndsIn(s.list, was)
    requires t < |s.threads| && Seen(s.nodes, was, s.threads[t])
    ensures var s' := Exec(s, acts); t < |s'.threads| && Seen(s'.nodes, was, s'.threads[t])
    decreases |acts|
  {
    if acts != [] {
      StepKeepsInv(s, acts[0]);
      StepSees(s, acts[0], t, was);
      RunSees(Step(s, acts[0]), acts[1..], t, was);
    }
  }

  lemma PutSees(s: State, t: nat, v: int, acts: seq<Action>)
    requires Reachable(s) && Enabled(s, StartPut(t, v))
    requires IsRun(Step(s, StartPut(t, v)), acts) && Busy(Step(s, StartPut(t, v)), acts, t)
    ensures var s' := Exec(Step(s, StartPut(t, v)), acts); t < |s'.threads| && Seen(s'.nodes, s.list, s'.threads[t])
    ensures forall i, j | 0 <= i < j < |s.list| :: s.list[i] != s.list[j]
  {
    ReachableInv(s);
    var s1, was := Step(s, StartPut(t, v)), s.list;
    StepKeepsInv(s, StartPut(t, v));
    assert s1.list[0..] == was;
    if was != [] { assert was[0] == s.head.value && FullTo(s1.nodes, was, 0); }
    RunSees(s1, acts, t, was);
  }

  /**
    Whatever the others do in the meantime, a put makes a new node only if all the nodes that were in the
    list when it began are full.
   */
  lemma NewNodesAreNeeded(s: State, t: nat, v: int, acts: seq<Action>)
    requires Reachable(s) && Enabled(s, StartPut(t, v))
    requires IsRun(Step(s, StartPut(t, v)), acts) && Busy(Step(s, StartPut(t, v)), acts, t)
    ensures var s' := Exec(Step(s, StartPut(t, v)), acts);
            && t < |s'.threads|
            && (Owns(s'.threads[t]) ==> forall n | n in s.list :: Full(s'.nodes, n))
  {
    var s1, was := Step(s, StartPut(t, v)), s.list;
    var s' := Exec(s1, acts);
    PutSees(s, t, v, acts);
    if Owns(s'.threads[t]) {
      forall n | n in was ensures Full(s'.nodes, n) {
        var i :| 0 <= i < |was| && was[i] == n;
        assert Full(s'.nodes, was[i]);
      }
    }
  }

  /** A put that claims an empty node takes the first one it can: all before it that were there are full. */
  lemma FirstEmptyIsTaken(s: State, t: nat, v: int, acts: seq<Action>, k: nat)
    requires Reachable(s) && Enabled(s, StartPut(t, v)) && k < |s.list|
    requires IsRun(Step(s, StartPut(t, v)), acts) && Busy(Step(s, StartPut(t, v)), acts, t)
    requires var s' := Exec(Step(s, StartPut(t, v)), acts); t < |s'.threads| && s'.threads[t] == Claim(v, s.list[k])
    ensures var s' := Exec(Step(s, StartPut(t, v)), acts); forall j | 0 <= j < k :: Full(s'.nodes, s.list[j])
  {
    var s1, was := Step(s, StartPut(t, v)), s.list;
    var s' := Exec(s1, acts);
    PutSees(s, t, v, acts);
    var i :| 0 <= i < |was| && was[i] == was[k] && FullTo(s'.nodes, was, i);
    assert i == k;
    forall j | 0 <= j < k ensures Full(s'.nodes, was[j]) {
    }
  }
}
