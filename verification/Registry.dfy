/**
  The process registry in shared memory: a revision number and a table of process ids, changed by
  single stores.  Each operation is described by the stores it makes, in order, so that a crash is
  a prefix of them; the class at the end performs these stores.
 */
module Registry {
  const INVALID_ID: nat := 0
  const MAX_PROCESSES := 31

  datatype Shared = Shared(revision: int, processes: seq<nat>)

  datatype Store = Bump | Put(index: nat, id: nat)

  function Perform(r: Shared, s: Store): Shared {
    match s
    case Bump => r.(revision := r.revision + 1)
    case Put(i, id) => if i < |r.processes| then r.(processes := r.processes[i := id]) else r
  }

  function PerformAll(r: Shared, ss: seq<Store>): Shared
    decreases ss
  {
    if ss == [] then r else PerformAll(Perform(r, ss[0]), ss[1..])
  }

  // ---------------------------------------------------------------------------------------------
  // The operations as stores
  // ---------------------------------------------------------------------------------------------

  /** The first position at or after `from` that holds the id, or the length of the table. */
  function Find(t: seq<nat>, id: nat, from: nat): (i: nat)
    requires from <= |t|
    ensures from <= i <= |t|
    ensures i < |t| ==> t[i] == id
    ensures forall j | from <= j < i :: t[j] != id
    decreases |t| - from
  {
    if from == |t| || t[from] == id then from else Find(t, id, from + 1)
  }

  /** The first position at or after `from` whose process cannot be opened any more. */
  function FindDead(t: seq<nat>, dead: set<nat>, from: nat): (i: nat)
    requires from <= |t|
    ensures from <= i <= |t|
    ensures i < |t| ==> t[i] in dead
    ensures forall j | from <= j < i :: t[j] !in dead
    decreases |t| - from
  {
    if from == |t| || t[from] in dead then from else FindDead(t, dead, from + 1)
  }

  /** The number of entries before the first empty one. */
  function Count(t: seq<nat>): nat {
    Find(t, INVALID_ID, 0)
  }

  function AddStores(t: seq<nat>, id: nat, dead: set<nat>): seq<Store> {
    var i := if Count(t) < |t| then Count(t) else FindDead(t, dead, 0);
    if i < |t| then [Bump, Put(i, id)] else []
  }

  function RemoveStores(t: seq<nat>, id: nat): seq<Store> {
    var i := Find(t, id, 0);
    if i == |t| then []
    else
      var last := Find(t, INVALID_ID, i + 1) - 1;
      if last != i then [Bump, Put(i, t[last]), Put(last, INVALID_ID)] else [Bump, Put(i, INVALID_ID)]
  }

  function RepairStores(t: seq<nat>): seq<Store> {
    var n := Count(t);
    if n == 0 then []
    else if Find(t, t[n - 1], 0) < n - 1 then [Bump, Put(n - 1, INVALID_ID)]
    else []
  }

  // ---------------------------------------------------------------------------------------------
  // What the table means
  // ---------------------------------------------------------------------------------------------

  /** The set of registered processes. */
  ghost function Ids(t: seq<nat>): set<nat> {
    set i | 0 <= i < |t| && t[i] != INVALID_ID :: t[i]
  }

  ghost predicate NoHoles(t: seq<nat>) {
    forall i | Count(t) <= i < |t| :: t[i] == INVALID_ID
  }

  ghost predicate DistinctUpTo(t: seq<nat>, n: nat)
    requires n <= |t|
  {
    forall i, j | 0 <= i < j < n :: t[i] != t[j]
  }

  /** What a lock holder may rely on: no holes, no duplicates. */
  ghost predicate Sound(t: seq<nat>) {
    NoHoles(t) && DistinctUpTo(t, Count(t))
  }

  /** What a crash can leave behind: the last entry may repeat an earlier one. */
  ghost predicate Recoverable(t: seq<nat>) {
    NoHoles(t) && DistinctUpTo(t, if Count(t) == 0 then 0 else Count(t) - 1)
  }

  lemma CountIs(t: seq<nat>, n: nat)
    requires n <= |t|
    requires forall i | 0 <= i < n :: t[i] != INVALID_ID
    requires forall i | n <= i < |t| :: t[i] == INVALID_ID
    ensures Count(t) == n && NoHoles(t)
  {
    if Count(t) < |t| { assert t[Count(t)] == INVALID_ID; }
    if n < |t| { assert t[n] == INVALID_ID; }
  }

  /** A plan is safe if the table stays recoverable at every point, and ends up sound. */
  ghost predicate SafePlan(t: seq<nat>, plan: seq<Store>)
    decreases plan
  {
    && Recoverable(t)
    && (plan == [] ==> Sound(t))
    && (plan != [] ==> SafePlan(Perform(Shared(0, t), plan[0]).processes, plan[1..]))
  }

  /** The set of ids goes from `before` to `after` in one store, and to nothing else on the way. */
  ghost predicate AtomicPlan(t: seq<nat>, plan: seq<Store>, before: set<nat>, after: set<nat>)
    decreases plan
  {
    && (Ids(t) == before || Ids(t) == after)
    && (plan == [] ==> Ids(t) == after)
    && (plan != [] ==>
          AtomicPlan(Perform(Shared(0, t), plan[0]).processes, plan[1..],
                     if Ids(t) == after then after else before, after))
  }

  // ---------------------------------------------------------------------------------------------
  // The operations keep it
  // ---------------------------------------------------------------------------------------------

  lemma SetEntry(t: seq<nat>, i: nat, id: nat)
    requires i < |t|
    ensures forall x | x != t[i] && x != id :: x in Ids(t[i := id]) <==> x in Ids(t)
    ensures id != INVALID_ID ==> id in Ids(t[i := id])
    ensures t[i] != id ==>
              (t[i] in Ids(t[i := id]) <==> t[i] != INVALID_ID && exists j | 0 <= j < |t| :: j != i && t[j] == t[i])
  {
    var t' := t[i := id];
    forall x | x != t[i] && x != id ensures x in Ids(t') <==> x in Ids(t) {
      if x in Ids(t) { var j :| 0 <= j < |t| && t[j] != INVALID_ID && t[j] == x; assert t'[j] == x; }
      if x in Ids(t') { var j :| 0 <= j < |t| && t'[j] != INVALID_ID && t'[j] == x; assert t[j] == x; }
    }
    assert t'[i] == id;
    if t[i] != id {
      if t[i] in Ids(t') {
        var j :| 0 <= j < |t| && t'[j] != INVALID_ID && t'[j] == t[i];
        assert j != i && t[j] == t[i];
      }
      if t[i] != INVALID_ID && exists j | 0 <= j < |t| :: j != i && t[j] == t[i] {
        var j :| 0 <= j < |t| && j != i && t[j] == t[i];
        assert t'[j] == t[i];
      }
    }
  }

  /** A plan of one real store is safe and atomic if what it leads to is sound. */
  lemma PutPlan(t: seq<nat>, i: nat, id: nat)
    requires i < |t| && Recoverable(t) && Sound(t[i := id])
    ensures SafePlan(t, [Bump, Put(i, id)]) && AtomicPlan(t, [Bump, Put(i, id)], Ids(t), Ids(t[i := id]))
  {
    var plan, t' := [Bump, Put(i, id)], t[i := id];
    assert plan[1..] == [Put(i, id)] && plan[1..][1..] == [];
    assert SafePlan(t', []) && AtomicPlan(t', [], Ids(t'), Ids(t'));
    assert SafePlan(t, plan[1..]) && AtomicPlan(t, plan[1..], Ids(t), Ids(t'));
  }

  lemma DropDuplicate(t: seq<nat>, i: nat, k: nat)
    requires i < |t| && k < |t| && i != k && t[i] == t[k]
    ensures Ids(t[k := INVALID_ID]) == Ids(t)
  {
    SetEntry(t, k, INVALID_ID);
  }

  lemma RepairIsSafe(t: seq<nat>)
    requires Recoverable(t)
    ensures SafePlan(t, RepairStores(t)) && AtomicPlan(t, RepairStores(t), Ids(t), Ids(t))
  {
    var n, plan := Count(t), RepairStores(t);
    if plan == [] {
      if n > 0 {
        assert Find(t, t[n - 1], 0) >= n - 1;
      }
    } else {
      var i, t' := Find(t, t[n - 1], 0), t[n - 1 := INVALID_ID];
      CountIs(t', n - 1);
      DropDuplicate(t, i, n - 1);
      PutPlan(t, n - 1, INVALID_ID);
    }
  }

  lemma RemoveIsSafe(t: seq<nat>, id: nat)
    requires Sound(t) && id != INVALID_ID
    ensures SafePlan(t, RemoveStores(t, id)) && AtomicPlan(t, RemoveStores(t, id), Ids(t), Ids(t) - {id})
    ensures RemoveStores(t, id) == [] <==> id !in Ids(t)
  {
    var i, n, plan := Find(t, id, 0), Count(t), RemoveStores(t, id);
    if i == |t| {
      assert id !in Ids(t);
      assert Ids(t) - {id} == Ids(t);
    } else {
      assert id in Ids(t) && i < n;
      assert Find(t, INVALID_ID, i + 1) == n;
      if i == n - 1 {
        RemoveLastIsSafe(t, id);
      } else {
        RemoveInnerIsSafe(t, id);
      }
    }
  }

  lemma RemoveLastIsSafe(t: seq<nat>, id: nat)
    requires Sound(t) && id != INVALID_ID && Count(t) > 0 && Find(t, id, 0) == Count(t) - 1
    requires RemoveStores(t, id) == [Bump, Put(Count(t) - 1, INVALID_ID)]
    ensures SafePlan(t, RemoveStores(t, id)) && AtomicPlan(t, RemoveStores(t, id), Ids(t), Ids(t) - {id})
  {
    var n := Count(t);
    var t' := t[n - 1 := INVALID_ID];
    CountIs(t', n - 1);
    SetEntry(t, n - 1, INVALID_ID);
    assert Ids(t') == Ids(t) - {id};
    PutPlan(t, n - 1, INVALID_ID);
  }

  lemma RemoveInnerIsSafe(t: seq<nat>, id: nat)
    requires Sound(t) && id != INVALID_ID && Find(t, id, 0) < Count(t) - 1
    requires RemoveStores(t, id)
          == [Bump, Put(Find(t, id, 0), t[Count(t) - 1]), Put(Count(t) - 1, INVALID_ID)]
    ensures SafePlan(t, RemoveStores(t, id)) && AtomicPlan(t, RemoveStores(t, id), Ids(t), Ids(t) - {id})
  {
    var i, n := Find(t, id, 0), Count(t);
    var t1 := t[i := t[n - 1]];
    var t2 := t1[n - 1 := INVALID_ID];
    CountIs(t1, n);
    CountIs(t2, n - 1);
    assert Recoverable(t1) && Sound(t2);
    RemovedIds(t, i, n);
    TwoPutsPlan(t, i, t[n - 1], n - 1, RemoveStores(t, id));
  }

  /** A plan of two real stores, the second of which changes no ids. */
  lemma TwoPutsPlan(t: seq<nat>, i: nat, id: nat, k: nat, plan: seq<Store>)
    requires i < |t| && k < |t| && plan == [Bump, Put(i, id), Put(k, INVALID_ID)]
    requires Recoverable(t) && Recoverable(t[i := id]) && Sound(t[i := id][k := INVALID_ID])
    requires Ids(t[i := id][k := INVALID_ID]) == Ids(t[i := id])
    ensures SafePlan(t, plan) && AtomicPlan(t, plan, Ids(t), Ids(t[i := id]))
  {
    var t1, rest, last := t[i := id], plan[1..], plan[1..][1..];
    assert rest == [Put(i, id), Put(k, INVALID_ID)] && last == [Put(k, INVALID_ID)] && last[1..] == [];
    assert SafePlan(t1, last) && SafePlan(t, rest);
    assert AtomicPlan(t1, last, Ids(t1), Ids(t1)) && AtomicPlan(t, rest, Ids(t), Ids(t1));
  }

  lemma RemovedIds(t: seq<nat>, i: nat, n: nat)
    requires i < n - 1 < |t| && DistinctUpTo(t, n)
    requires forall j | 0 <= j < n :: t[j] != INVALID_ID
    requires forall j | n <= j < |t| :: t[j] == INVALID_ID
    ensures Ids(t[i := t[n - 1]]) == Ids(t) - {t[i]}
    ensures Ids(t[i := t[n - 1]][n - 1 := INVALID_ID]) == Ids(t) - {t[i]}
  {
    var t1 := t[i := t[n - 1]];
    SetEntry(t, i, t[n - 1]);
    assert t[n - 1] in Ids(t);
    assert Ids(t1) == Ids(t) - {t[i]};
    SetEntry(t1, n - 1, INVALID_ID);
    assert t1[i] == t1[n - 1];
  }

  /** The id joins the set; in a full table it takes the place of a process that is gone. */
  ghost function AfterAdd(t: seq<nat>, id: nat, dead: set<nat>): set<nat> {
    if Count(t) < |t| then Ids(t) + {id}
    else if FindDead(t, dead, 0) < |t| then Ids(t) - {t[FindDead(t, dead, 0)]} + {id}
    else Ids(t)
  }

  lemma AddIsSafe(t: seq<nat>, id: nat, dead: set<nat>)
    requires Sound(t) && id != INVALID_ID && id !in Ids(t)
    ensures SafePlan(t, AddStores(t, id, dead)) && AtomicPlan(t, AddStores(t, id, dead), Ids(t), AfterAdd(t, id, dead))
  {
    var n := Count(t);
    var i := if n < |t| then n else FindDead(t, dead, 0);
    if i < |t| {
      var t' := t[i := id];
      CountIs(t', if n < |t| then n + 1 else n);
      assert forall j | 0 <= j < n :: t[j] in Ids(t);
      SetEntry(t, i, id);
      assert Ids(t') == AfterAdd(t, id, dead);
      PutPlan(t, i, id);
    }
  }

  lemma {:induction false} ManyIds(t: seq<nat>, n: nat)
    requires n <= |t| && DistinctUpTo(t, n)
    ensures |set i | 0 <= i < n :: t[i]| == n
  {
    if n > 0 {
      ManyIds(t, n - 1);
      var less := set i | 0 <= i < n - 1 :: t[i];
      assert (set i | 0 <= i < n :: t[i]) == less + {t[n - 1]};
      assert t[n - 1] !in less;
    }
  }

  /** There is an entry for each id. */
  lemma CountIsNumber(t: seq<nat>)
    requires Sound(t)
    ensures |Ids(t)| == Count(t)
  {
    ManyIds(t, Count(t));
    assert Ids(t) == set i | 0 <= i < Count(t) :: t[i];
  }

  /**
    What adding does to the set of ids: the new one joins it; in a full table it takes the place of one
    that is gone; and only if none of them is gone it is not added.
   */
  ghost predicate Added(before: set<nat>, size: nat, id: nat, dead: set<nat>, after: set<nat>) {
    if |before| < size then after == before + {id}
    else if before * dead == {} then after == before
    else exists gone :: gone in before && gone in dead && after == before - {gone} + {id}
  }

  lemma AddWorks(t: seq<nat>, id: nat, dead: set<nat>)
    requires Sound(t)
    ensures Added(Ids(t), |t|, id, dead, AfterAdd(t, id, dead))
    ensures AddStores(t, id, dead) == [] <==> |Ids(t)| == |t| && Ids(t) * dead == {}
  {
    CountIsNumber(t);
    if Count(t) == |t| {
      var i := FindDead(t, dead, 0);
      assert forall j | 0 <= j < |t| :: t[j] in Ids(t);
      if i < |t| { assert t[i] in Ids(t) * dead; }
      if x :| x in Ids(t) * dead {
        var j :| 0 <= j < |t| && t[j] == x;
      }
    }
  }

  // ---------------------------------------------------------------------------------------------
  // Crashes
  // ---------------------------------------------------------------------------------------------

  lemma {:induction false} PlanPrefix(r: Shared, plan: seq<Store>, before: set<nat>, after: set<nat>, k: nat)
    requires SafePlan(r.processes, plan) && AtomicPlan(r.processes, plan, before, after) && k <= |plan|
    ensures var t := PerformAll(r, plan[..k]).processes;
            Recoverable(t) && (Ids(t) == before || Ids(t) == after)
    ensures k == |plan| ==> var t := PerformAll(r, plan[..k]).processes; Sound(t) && Ids(t) == after
    decreases k
  {
    if k > 0 {
      assert plan[..k][1..] == plan[1..][..k - 1];
      assert Perform(r, plan[0]).processes == Perform(Shared(0, r.processes), plan[0]).processes;
      var before' := if Ids(r.processes) == after then after else before;
      PlanPrefix(Perform(r, plan[0]), plan[1..], before', after, k - 1);
    }
  }

  /** The table after a repair. */
  function Repaired(r: Shared): Shared {
    PerformAll(r, RepairStores(r.processes))
  }

  lemma RepairWorks(r: Shared)
    requires Recoverable(r.processes)
    ensures Sound(Repaired(r).processes) && Ids(Repaired(r).processes) == Ids(r.processes)
  {
    var plan := RepairStores(r.processes);
    RepairIsSafe(r.processes);
    PlanPrefix(r, plan, Ids(r.processes), Ids(r.processes), |plan|);
    assert plan[..|plan|] == plan;
  }

  /**
    If a process dies after any number of the stores of Add, Remove or Repair, then whoever repairs
    the table, even after any number of further deaths in the middle of a repair, gets a table
    without holes and duplicates that holds the ids from before or from after the operation.
   */
  lemma CrashIsRepaired(r: Shared, plan: seq<Store>, before: set<nat>, after: set<nat>, k: nat, failedRepairs: seq<nat>)
    requires SafePlan(r.processes, plan) && AtomicPlan(r.processes, plan, before, after) && k <= |plan|
    ensures var crashed := AfterFailedRepairs(PerformAll(r, plan[..k]), failedRepairs);
            Sound(Repaired(crashed).processes)
            && (Ids(Repaired(crashed).processes) == before || Ids(Repaired(crashed).processes) == after)
  {
    PlanPrefix(r, plan, before, after, k);
    var crashed := PerformAll(r, plan[..k]);
    FailedRepairsHarmNothing(crashed, failedRepairs);
    RepairWorks(AfterFailedRepairs(crashed, failedRepairs));
  }

  /** Repairs that were cut off after the given numbers of stores. */
  function AfterFailedRepairs(r: Shared, cuts: seq<nat>): Shared
    decreases cuts
  {
    if cuts == [] then r
    else
      var plan := RepairStores(r.processes);
      AfterFailedRepairs(PerformAll(r, plan[..if cuts[0] <= |plan| then cuts[0] else |plan|]), cuts[1..])
  }

  lemma {:induction false} FailedRepairsHarmNothing(r: Shared, cuts: seq<nat>)
    requires Recoverable(r.processes)
    ensures var t := AfterFailedRepairs(r, cuts).processes; Recoverable(t) && Ids(t) == Ids(r.processes)
    decreases cuts
  {
    if cuts != [] {
      var plan := RepairStores(r.processes);
      var k := if cuts[0] <= |plan| then cuts[0] else |plan|;
      RepairIsSafe(r.processes);
      PlanPrefix(r, plan, Ids(r.processes), Ids(r.processes), k);
      FailedRepairsHarmNothing(PerformAll(r, plan[..k]), cuts[1..]);
    }
  }

  lemma {:induction false} PerformConcat(r: Shared, a: seq<Store>, b: seq<Store>)
    ensures PerformAll(r, a + b) == PerformAll(PerformAll(r, a), b)
    decreases a
  {
    if a == [] {
      assert a + b == b;
    } else {
      assert (a + b)[1..] == a[1..] + b;
      PerformConcat(Perform(r, a[0]), a[1..], b);
    }
  }

  // ---------------------------------------------------------------------------------------------
  // The class
  // ---------------------------------------------------------------------------------------------

  /**
    One process's view: the mapped table and the private copy of it.  `log` records every store to
    the shared memory in order, which is what a crash cuts short.
   */
  class IpcProcessRegistry {
    var revision: int
    const processes: array<nat>
    var cached: Shared
    ghost var log: seq<Store>

    ghost predicate Valid()
    {
      processes.Length == MAX_PROCESSES
    }

    ghost function Table(): Shared
      reads this, processes
    {
      Shared(revision, processes[..])
    }

    constructor ()
      ensures Valid() && fresh(processes) && log == []
      ensures Table() == Shared(0, seq(MAX_PROCESSES, i => INVALID_ID)) && cached == Table()
    {
      processes := new nat[MAX_PROCESSES](i => INVALID_ID);
      revision := 0;
      cached := Shared(0, seq(MAX_PROCESSES, i => INVALID_ID));
      log := [];
      new;
      assert processes[..] == seq(MAX_PROCESSES, i => INVALID_ID);
    }

    /** One store to the shared memory. */
    method StoreRevision()
      requires Valid()
      modifies this`revision, this`log
      ensures log == old(log) + [Bump] && Table() == Perform(old(Table()), Bump)
    {
      revision := revision + 1;
      log := log + [Bump];
    }

    /** One store to the shared memory. */
    method StoreProcess(index: nat, id: nat)
      requires Valid() && index < MAX_PROCESSES
      modifies this`log, processes
      ensures log == old(log) + [Put(index, id)] && Table() == Perform(old(Table()), Put(index, id))
    {
      processes[index] := id;
      log := log + [Put(index, id)];
      assert processes[..] == old(processes[..])[index := id];
    }

    /** Bump the revision number first, then store. */
    method BumpAndPut(index: nat, id: nat)
      requires Valid() && index < MAX_PROCESSES
      modifies this`revision, this`log, processes
      ensures log == old(log) + [Bump, Put(index, id)]
      ensures Table() == PerformAll(old(Table()), [Bump, Put(index, id)])
    {
      StoreRevision();
      StoreProcess(index, id);
      TwoStores(old(Table()), index, id);
    }

    /** The loop that looks for an id from a position on. */
    method Search(id: nat, from: nat) returns (i: nat)
      requires Valid() && from <= MAX_PROCESSES
      ensures i == Find(processes[..], id, from)
    {
      i := from;
      while i < MAX_PROCESSES && processes[i] != id
        invariant from <= i <= MAX_PROCESSES
        invariant forall j | from <= j < i :: processes[j] != id
      {
        i := i + 1;
      }
      FindUnique(processes[..], id, from, i);
    }

    method Repair()
      requires Valid()
      modifies this`revision, this`log, processes
      ensures log == old(log) + RepairStores(old(processes[..]))
      ensures Table() == Repaired(old(Table()))
    {
      var n := Search(INVALID_ID, 0);
      if n == 0 { return; }
      var lastValid := n - 1;
      var possibleDup := processes[lastValid];
      var k := Search(possibleDup, 0);
      if k < lastValid {
        BumpAndPut(lastValid, INVALID_ID);
      }
    }

    /** `dead` are the processes that can no longer be opened. */
    method Add(id: nat, abandoned: bool, dead: set<nat>) returns (ok: bool)
      requires Valid() && id != INVALID_ID
      modifies this`revision, this`log, processes
      ensures var repair := if abandoned then RepairStores(old(processes[..])) else [];
              var r := if abandoned then Repaired(old(Table())) else old(Table());
              var add := AddStores(r.processes, id, dead);
              && log == old(log) + repair + add && Table() == PerformAll(r, add)
              && (ok <==> add != [])
    {
      if abandoned { Repair(); }
      ghost var r, l := Table(), log;
      ghost var t := r.processes;
      var i := Search(INVALID_ID, 0);
      if i < MAX_PROCESSES {
        BumpAndPut(i, id);
        return true;
      }
      i := 0;
      while i < MAX_PROCESSES
        invariant 0 <= i <= MAX_PROCESSES && log == l && Table() == r
        invariant forall j | 0 <= j < i :: t[j] !in dead
      {
        if processes[i] in dead {
          FindDeadUnique(t, dead, 0, i);
          BumpAndPut(i, id);
          return true;
        }
        i := i + 1;
      }
      FindDeadUnique(t, dead, 0, i);
      return false;
    }

    method Remove(id: nat, abandoned: bool) returns (ok: bool)
      requires Valid() && id != INVALID_ID
      modifies this`revision, this`log, processes
      ensures var repair := if abandoned then RepairStores(old(processes[..])) else [];
              var r := if abandoned then Repaired(old(Table())) else old(Table());
              var remove := RemoveStores(r.processes, id);
              && log == old(log) + repair + remove && Table() == PerformAll(r, remove)
              && (ok <==> remove != [])
    {
      if abandoned { Repair(); }
      var ourIndex := Search(id, 0);
      if ourIndex == MAX_PROCESSES { return false; }
      var end := Search(INVALID_ID, ourIndex + 1);
      RemoveAt(ourIndex, end - 1);
      return true;
    }

    /** Replace the value at our index with that of the last, then shorten. */
    method RemoveAt(ourIndex: nat, last: nat)
      requires Valid() && ourIndex <= last < MAX_PROCESSES
      modifies this`revision, this`log, processes
      ensures var plan := if last != ourIndex
                          then [Bump, Put(ourIndex, old(processes[last])), Put(last, INVALID_ID)]
                          else [Bump, Put(ourIndex, INVALID_ID)];
              log == old(log) + plan && Table() == PerformAll(old(Table()), plan)
    {
      ghost var r := Table();
      if last != ourIndex {
        ghost var first := [Bump, Put(ourIndex, processes[last])];
        BumpAndPut(ourIndex, processes[last]);
        PerformConcat(r, first, [Put(last, INVALID_ID)]);
        assert first + [Put(last, INVALID_ID)] == [Bump, Put(ourIndex, r.processes[last]), Put(last, INVALID_ID)];
        assert [Put(last, INVALID_ID)][1..] == [];
        StoreProcess(last, INVALID_ID);
      } else {
        BumpAndPut(ourIndex, INVALID_ID);
      }
    }

    /** The registered ids: from the private copy if its revision is current, else from a new copy. */
    method GetAll(abandoned: bool) returns (out: seq<nat>)
      requires Valid() && |cached.processes| == MAX_PROCESSES
      modifies this`revision, this`log, this`cached, processes
      ensures |cached.processes| == MAX_PROCESSES
      ensures old(cached.revision) == old(revision) ==>
                cached == old(cached) && Table() == old(Table()) && log == old(log)
      ensures old(cached.revision) != old(revision) ==>
                && cached == Table() && Table() == (if abandoned then Repaired(old(Table())) else old(Table()))
                && log == old(log) + (if abandoned then RepairStores(old(processes[..])) else [])
      ensures out == cached.processes[..Count(cached.processes)]
    {
      out := [];
      if cached.revision != revision {
        if abandoned { Repair(); }
        cached := Shared(revision, processes[..]);
      }
      var i := 0;
      while i < MAX_PROCESSES && cached.processes[i] != INVALID_ID
        invariant 0 <= i <= MAX_PROCESSES && out == cached.processes[..i]
        invariant forall j | 0 <= j < i :: cached.processes[j] != INVALID_ID
      {
        out := out + [cached.processes[i]];
        i := i + 1;
      }
      CountUnique(cached.processes, i);
    }
  }

  lemma TwoStores(r: Shared, index: nat, id: nat)
    requires index < |r.processes|
    ensures PerformAll(r, [Bump, Put(index, id)]) == Shared(r.revision + 1, r.processes[index := id])
  {
    var plan, r' := [Bump, Put(index, id)], Perform(r, Bump);
    assert plan[1..] == [Put(index, id)] && plan[1..][1..] == [];
    assert PerformAll(r', plan[1..]) == PerformAll(Perform(r', Put(index, id)), []);
  }

  lemma FindUnique(t: seq<nat>, id: nat, from: nat, i: nat)
    requires from <= i <= |t| && (i < |t| ==> t[i] == id)
    requires forall j | from <= j < i :: t[j] != id
    ensures Find(t, id, from) == i
  {
    var f := Find(t, id, from);
    if f < |t| { assert t[f] == id; }
  }

  lemma FindDeadUnique(t: seq<nat>, dead: set<nat>, from: nat, i: nat)
    requires from <= i <= |t| && (i < |t| ==> t[i] in dead)
    requires forall j | from <= j < i :: t[j] !in dead
    ensures FindDead(t, dead, from) == i
  {
    var f := FindDead(t, dead, from);
    if f < |t| { assert t[f] in dead; }
  }

  lemma CountUnique(t: seq<nat>, n: nat)
    requires n <= |t| && (n < |t| ==> t[n] == INVALID_ID)
    requires forall j | 0 <= j < n :: t[j] != INVALID_ID
    ensures Count(t) == n
  {
    FindUnique(t, INVALID_ID, 0, n);
  }
}
