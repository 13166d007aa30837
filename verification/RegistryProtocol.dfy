/**
  Many processes on one registry: a cross-process mutex, operations that are cut into single stores,
  deaths at any point, and the unlocked look at the revision number.
 */
module RegistryProtocol {
  import opened Registry

  datatype Op = Add(id: nat, dead: set<nat>) | Remove(id: nat) | Refresh

  /** `before` and `after` are history: the ids when the lock was taken, and those the operation is to leave. */
  datatype Pc = Idle | Locked(todo: seq<Store>, refresh: bool, before: set<nat>, after: set<nat>)

  datatype Process = Process(alive: bool, ready: bool, cache: Shared, pc: Pc)

  datatype Lock = Free | Abandoned | Held(holder: nat)

  datatype State = State(shared: Shared, lock: Lock, processes: map<nat, Process>)

  ghost predicate Initial(s: State) {
    && Sound(s.shared.processes) && s.lock == Free
    && forall p | p in s.processes :: s.processes[p].alive && !s.processes[p].ready && s.processes[p].pc == Idle
  }

  datatype Action = Take(p: nat, op: Op) | DoStore(p: nat) | Finish(p: nat) | Kill(p: nat)

  function OpStores(t: seq<nat>, op: Op): seq<Store> {
    match op
    case Add(id, dead) => AddStores(t, id, dead)
    case Remove(id) => RemoveStores(t, id)
    case Refresh => []
  }

  ghost function OpIds(t: seq<nat>, op: Op): set<nat> {
    match op
    case Add(id, dead) => AfterAdd(t, id, dead)
    case Remove(id) => Ids(t) - {id}
    case Refresh => Ids(t)
  }

  /** What the new lock holder is going to store: a repair if the last holder died, then its operation. */
  ghost function Plan(r: Shared, abandoned: bool, op: Op): Pc {
    var repair := if abandoned then RepairStores(r.processes) else [];
    var t := PerformAll(r, repair).processes;
    Locked(repair + OpStores(t, op), op.Refresh?, Ids(r.processes), OpIds(t, op))
  }

  ghost predicate Enabled(s: State, a: Action) {
    && a.p in s.processes && s.processes[a.p].alive
    && match a
       case Take(p, op) =>
         && s.processes[p].pc == Idle && !s.lock.Held?
         && (op.Add? ==> op.id != INVALID_ID && op.id !in Ids(s.shared.processes))
         && (op.Remove? ==> op.id != INVALID_ID)
       case DoStore(p) => s.processes[p].pc.Locked? && s.processes[p].pc.todo != []
       case Finish(p) => s.processes[p].pc.Locked? && s.processes[p].pc.todo == []
       case Kill(p) => true
  }

  ghost function Apply(s: State, a: Action): State
    requires Enabled(s, a)
  {
    var x := s.processes[a.p];
    match a
    case Take(p, op) =>
      s.(lock := Held(p), processes := s.processes[p := x.(pc := Plan(s.shared, s.lock.Abandoned?, op))])
    case DoStore(p) =>
      s.(shared := Perform(s.shared, x.pc.todo[0]),
         processes := s.processes[p := x.(pc := x.pc.(todo := x.pc.todo[1..]))])
    case Finish(p) =>
      s.(lock := Free,
         processes := s.processes[p := if x.pc.refresh then x.(pc := Idle, ready := true, cache := s.shared)
                                       else x.(pc := Idle)])
    case Kill(p) =>
      s.(lock := if s.lock == Held(p) then Abandoned else s.lock, processes := s.processes[p := x.(alive := false)])
  }

  ghost predicate IsRun(s: State, actions: seq<Action>)
    decreases actions
  {
    actions == [] || (Enabled(s, actions[0]) && IsRun(Apply(s, actions[0]), actions[1..]))
  }

  ghost function Exec(s: State, actions: seq<Action>): State
    requires IsRun(s, actions)
    decreases actions
  {
    if actions == [] then s else Exec(Apply(s, actions[0]), actions[1..])
  }

  // ---------------------------------------------------------------------------------------------
  // The invariant
  // ---------------------------------------------------------------------------------------------

  /** Nobody works on the table without holding the lock. */
  ghost predicate LockOk(s: State) {
    && (s.lock.Held? ==> s.lock.holder in s.processes && s.processes[s.lock.holder].alive)
    && forall p | p in s.processes && s.processes[p].alive :: s.processes[p].pc.Locked? <==> s.lock == Held(p)
  }

  ghost predicate PlanOk(t: seq<nat>, pc: Pc) {
    pc.Locked? ==> SafePlan(t, pc.todo) && AtomicPlan(t, pc.todo, pc.before, pc.after)
  }

  ghost predicate TableOk(s: State) {
    match s.lock
    case Free => Sound(s.shared.processes)
    case Abandoned => Recoverable(s.shared.processes)
    case Held(p) => p in s.processes && PlanOk(s.shared.processes, s.processes[p].pc)
  }

  /** An equal revision means an equal table. */
  ghost predicate CacheOk(shared: Shared, x: Process) {
    x.ready ==>
      && x.cache.revision <= shared.revision
      && (x.cache.revision == shared.revision ==> x.cache.processes == shared.processes)
      && Sound(x.cache.processes)
  }

  ghost predicate CachesOk(s: State) {
    forall p | p in s.processes :: CacheOk(s.shared, s.processes[p])
  }

  /** Every store to the table comes after the revision has left all the copies behind. */
  ghost predicate Bumped(shared: Shared, processes: map<nat, Process>) {
    forall p | p in processes && processes[p].ready :: processes[p].cache.revision < shared.revision
  }

  ghost predicate StoreOk(s: State) {
    s.lock.Held? && s.lock.holder in s.processes && s.processes[s.lock.holder].pc.Locked? ==>
      BumpFirst(s.processes[s.lock.holder].pc.todo) || Bumped(s.shared, s.processes)
  }

  ghost predicate BumpFirst(todo: seq<Store>) {
    todo == [] || todo[0].Bump?
  }

  ghost predicate Inv(s: State) {
    LockOk(s) && TableOk(s) && CachesOk(s) && StoreOk(s)
  }

  // ---------------------------------------------------------------------------------------------
  // Plans
  // ---------------------------------------------------------------------------------------------

  lemma OpIsSafe(t: seq<nat>, op: Op)
    requires Sound(t)
    requires op.Add? ==> op.id != INVALID_ID && op.id !in Ids(t)
    requires op.Remove? ==> op.id != INVALID_ID
    ensures SafePlan(t, OpStores(t, op)) && AtomicPlan(t, OpStores(t, op), Ids(t), OpIds(t, op))
    ensures BumpFirst(OpStores(t, op))
  {
    match op
    case Add(id, dead) => AddIsSafe(t, id, dead);
    case Remove(id) => RemoveIsSafe(t, id);
    case Refresh =>
  }

  /** A safe plan that ends where the next one starts makes one safe plan with it. */
  lemma {:induction false} PlansJoin(r: Shared, a: seq<Store>, b: seq<Store>, ids: set<nat>, after: set<nat>)
    requires SafePlan(r.processes, a) && AtomicPlan(r.processes, a, ids, ids) && Ids(r.processes) == ids
    requires SafePlan(PerformAll(r, a).processes, b) && AtomicPlan(PerformAll(r, a).processes, b, ids, after)
    ensures SafePlan(r.processes, a + b) && AtomicPlan(r.processes, a + b, ids, after)
    decreases a
  {
    if a == [] {
      assert a + b == b;
    } else {
      var r' := Perform(r, a[0]);
      assert (a + b)[0] == a[0] && (a + b)[1..] == a[1..] + b;
      assert r'.processes == Perform(Shared(0, r.processes), a[0]).processes;
      assert Ids(r'.processes) == ids;
      PlansJoin(r', a[1..], b, ids, after);
      if ids == after {
        assert AtomicPlan(r'.processes, a[1..] + b, after, after);
      }
    }
  }

  lemma PlanIsOk(r: Shared, abandoned: bool, op: Op)
    requires if abandoned then Recoverable(r.processes) else Sound(r.processes)
    requires op.Add? ==> op.id != INVALID_ID && op.id !in Ids(r.processes)
    requires op.Remove? ==> op.id != INVALID_ID
    ensures PlanOk(r.processes, Plan(r, abandoned, op)) && BumpFirst(Plan(r, abandoned, op).todo)
  {
    if abandoned {
      var repair, t := RepairStores(r.processes), Repaired(r).processes;
      RepairIsSafe(r.processes);
      RepairWorks(r);
      OpIsSafe(t, op);
      PlansJoin(r, repair, OpStores(t, op), Ids(r.processes), OpIds(t, op));
    } else {
      OpIsSafe(r.processes, op);
      assert [] + OpStores(r.processes, op) == OpStores(r.processes, op);
    }
  }

  // ---------------------------------------------------------------------------------------------
  // Steps
  // ---------------------------------------------------------------------------------------------

  lemma TakeKeepsInv(s: State, p: nat, op: Op)
    requires Inv(s) && Enabled(s, Take(p, op))
    ensures Inv(Apply(s, Take(p, op)))
  {
    PlanIsOk(s.shared, s.lock.Abandoned?, op);
  }

  lemma StoreKeepsInv(s: State, p: nat)
    requires Inv(s) && Enabled(s, DoStore(p))
    ensures Inv(Apply(s, DoStore(p)))
  {
    var x, s' := s.processes[p], Apply(s, DoStore(p));
    assert s.lock == Held(p);
    assert s'.shared.processes == Perform(Shared(0, s.shared.processes), x.pc.todo[0]).processes;
    if x.pc.todo[0].Bump? {
      assert Bumped(s'.shared, s'.processes);
    } else {
      assert Bumped(s.shared, s.processes);
      assert Bumped(s'.shared, s'.processes);
    }
    forall q | q in s'.processes ensures CacheOk(s'.shared, s'.processes[q]) {
      assert CacheOk(s.shared, s.processes[q]);
    }
    var before' := if Ids(s.shared.processes) == x.pc.after then x.pc.after else x.pc.before;
    BeforeWidens(s'.shared.processes, x.pc.todo[1..], before', x.pc.before, x.pc.after);
  }

  /** Remembering the older set does no harm. */
  lemma {:induction false} BeforeWidens(t: seq<nat>, plan: seq<Store>, before: set<nat>, older: set<nat>,
                                        after: set<nat>)
    requires AtomicPlan(t, plan, before, after) && (before == older || before == after)
    ensures AtomicPlan(t, plan, older, after)
    decreases plan
  {
    if plan != [] && before != older {
      var t' := Perform(Shared(0, t), plan[0]).processes;
      BeforeWidens(t', plan[1..], after, if Ids(t) == after then after else older, after);
    }
  }

  lemma FinishKeepsInv(s: State, p: nat)
    requires Inv(s) && Enabled(s, Finish(p))
    ensures Inv(Apply(s, Finish(p)))
  {
    var s' := Apply(s, Finish(p));
    assert s.lock == Held(p);
    forall q | q in s'.processes ensures CacheOk(s'.shared, s'.processes[q]) {
      assert CacheOk(s.shared, s.processes[q]);
    }
  }

  lemma KillKeepsInv(s: State, p: nat)
    requires Inv(s) && Enabled(s, Kill(p))
    ensures Inv(Apply(s, Kill(p)))
  {
    var s' := Apply(s, Kill(p));
    forall q | q in s'.processes ensures CacheOk(s'.shared, s'.processes[q]) {
      assert CacheOk(s.shared, s.processes[q]);
    }
    if s.lock.Held? && s.lock.holder != p {
      assert s'.processes[s.lock.holder] == s.processes[s.lock.holder];
    }
  }

  lemma StepKeepsInv(s: State, a: Action)
    requires Inv(s) && Enabled(s, a)
    ensures Inv(Apply(s, a))
  {
    match a
    case Take(p, op) => TakeKeepsInv(s, p, op);
    case DoStore(p) => StoreKeepsInv(s, p);
    case Finish(p) => FinishKeepsInv(s, p);
    case Kill(p) => KillKeepsInv(s, p);
  }

  ghost predicate Reachable(s: State) {
    exists s0, actions :: Initial(s0) && IsRun(s0, actions) && Exec(s0, actions) == s
  }

  lemma {:induction false} RunKeepsInv(s: State, actions: seq<Action>)
    requires Inv(s) && IsRun(s, actions)
    ensures Inv(Exec(s, actions))
    decreases actions
  {
    if actions != [] {
      StepKeepsInv(s, actions[0]);
      RunKeepsInv(Apply(s, actions[0]), actions[1..]);
    }
  }

  lemma ReachableInv(s: State)
    requires Reachable(s)
    ensures Inv(s)
  {
    var s0, actions :| Initial(s0) && IsRun(s0, actions) && Exec(s0, actions) == s;
    RunKeepsInv(s0, actions);
  }

  // ---------------------------------------------------------------------------------------------
  // What it promises
  // ---------------------------------------------------------------------------------------------

  /**
    The fast path of GetAll is right: whenever a process finds its copy's revision equal to the
    shared one, in whatever state the others are or died, the copy is the table at that moment,
    and it has neither holes nor duplicates.
   */
  lemma FastPathIsRight(s: State, p: nat)
    requires Reachable(s) && p in s.processes && s.processes[p].ready
    requires s.processes[p].cache.revision == s.shared.revision
    ensures s.processes[p].cache == s.shared && Sound(s.shared.processes)
  {
    ReachableInv(s);
    assert CacheOk(s.shared, s.processes[p]);
  }

  /** A refreshing process copies a sound table, even if its predecessors died in the middle of their work. */
  lemma SlowPathIsRight(s: State, p: nat)
    requires Reachable(s) && Enabled(s, Finish(p))
    ensures Sound(s.shared.processes) && Ids(s.shared.processes) == s.processes[p].pc.after
  {
    ReachableInv(s);
    assert s.lock == Held(p);
  }

  /** A free lock that nobody abandoned guards a sound table; an abandoned one, a table that a repair makes sound. */
  lemma UnlockedTableIsSound(s: State)
    requires Reachable(s) && !s.lock.Held?
    ensures s.lock.Free? ==> Sound(s.shared.processes)
    ensures s.lock.Abandoned? ==> Sound(Repaired(s.shared).processes)
    ensures s.lock.Abandoned? ==> Ids(Repaired(s.shared).processes) == Ids(s.shared.processes)
  {
    ReachableInv(s);
    if s.lock.Abandoned? { RepairWorks(s.shared); }
  }

  /**
    In every run each operation takes effect in one store or not at all: between two steps the set
    of registered ids is the one found when the lock was taken or the one the operation leaves.
   */
  lemma OperationsAreAtomic(s: State, p: nat)
    requires Reachable(s) && s.lock == Held(p)
    ensures p in s.processes && s.processes[p].pc.Locked?
    ensures Ids(s.shared.processes) in {s.processes[p].pc.before, s.processes[p].pc.after}
    ensures s.processes[p].pc.todo == [] ==> Ids(s.shared.processes) == s.processes[p].pc.after
  {
    ReachableInv(s);
  }

  /** What an operation is to do to the set of ids, in a table of that size. */
  ghost predicate Effect(op: Op, size: nat, before: set<nat>, after: set<nat>) {
    match op
    case Add(id, dead) => Added(before, size, id, dead, after)
    case Remove(id) => after == before - {id}
    case Refresh => after == before
  }

  lemma PlanHasEffect(s: State, p: nat, op: Op)
    requires Inv(s) && Enabled(s, Take(p, op))
    ensures var s' := Apply(s, Take(p, op));
            && s'.processes[p].pc.Locked? && s'.processes[p].pc.before == Ids(s.shared.processes)
            && Effect(op, |s.shared.processes|, Ids(s.shared.processes), s'.processes[p].pc.after)
  {
    var r := s.shared;
    var repair := if s.lock.Abandoned? then RepairStores(r.processes) else [];
    var t := PerformAll(r, repair).processes;
    if s.lock.Abandoned? { RepairWorks(r); }
    SizeStays(r, repair);
    if op.Add? { AddWorks(t, op.id, op.dead); }
  }

  lemma {:induction false} SizeStays(r: Shared, plan: seq<Store>)
    ensures |PerformAll(r, plan).processes| == |r.processes|
    decreases plan
  {
    if plan != [] { SizeStays(Perform(r, plan[0]), plan[1..]); }
  }

  /** Steps in which the process neither finishes nor dies. */
  ghost predicate KeepsOn(p: nat, actions: seq<Action>) {
    forall i | 0 <= i < |actions| :: actions[i] != Finish(p) && actions[i] != Kill(p)
  }

  lemma {:induction false} HolderKeepsOn(s: State, p: nat, actions: seq<Action>)
    requires Inv(s) && s.lock == Held(p) && IsRun(s, actions) && KeepsOn(p, actions)
    ensures var s' := Exec(s, actions);
            && Inv(s') && s'.lock == Held(p) && p in s'.processes && s'.processes[p].pc.Locked?
            && s.processes[p].pc.Locked?
            && s'.processes[p].pc.after == s.processes[p].pc.after
            && s'.processes[p].pc.refresh == s.processes[p].pc.refresh
    decreases actions
  {
    if actions != [] {
      StepKeepsInv(s, actions[0]);
      HolderKeepsOn(Apply(s, actions[0]), p, actions[1..]);
    }
  }

  /**
    From taking the lock to letting go of it, whatever the others do and however the last holder died,
    an operation does to the set of ids exactly what it is to do: the new id joins it, the old one
    leaves it, or it stays.
   */
  lemma OperationTakesEffect(s: State, p: nat, op: Op, between: seq<Action>)
    requires Reachable(s) && Enabled(s, Take(p, op)) && KeepsOn(p, between)
    requires var s1 := Apply(s, Take(p, op)); IsRun(s1, between) && Enabled(Exec(s1, between), Finish(p))
    ensures var s2 := Apply(Exec(Apply(s, Take(p, op)), between), Finish(p));
            && Effect(op, |s.shared.processes|, Ids(s.shared.processes), Ids(s2.shared.processes))
            && Sound(s2.shared.processes) && s2.lock == Free
            && (op.Refresh? ==> s2.processes[p].cache == s2.shared)
  {
    ReachableInv(s);
    var s1 := Apply(s, Take(p, op));
    PlanHasEffect(s, p, op);
    StepKeepsInv(s, Take(p, op));
    HolderKeepsOn(s1, p, between);
    assert PlanOk(Exec(s1, between).shared.processes, Exec(s1, between).processes[p].pc);
  }
}
