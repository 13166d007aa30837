/**
  Termination: when nobody sends anything new, the reader and the writers come to rest, and then
  everything has been delivered.
 */
module ChannelProgress {
  import opened Basics
  import opened Ring
  import opened Wire
  import opened Channel
  import opened ChannelInvariant
  import opened ChannelWakeups
  import opened ChannelTheorems

  // ---------------------------------------------------------------------------------------------
  // Sums over the writers
  // ---------------------------------------------------------------------------------------------

  ghost function Total(writers: map<nat, Writer>, f: Writer -> nat): nat
    decreases |writers|
  {
    if writers == map[] then 0
    else
      var w :| w in writers;
      assert |writers - {w}| < |writers| by { Removed(writers, w); }
      Total(writers - {w}, f) + f(writers[w])
  }

  lemma Removed(writers: map<nat, Writer>, w: nat)
    requires w in writers
    ensures |writers - {w}| < |writers|
  {
    assert (writers - {w}).Keys == writers.Keys - {w};
    assert |writers.Keys - {w}| == |writers.Keys| - 1;
  }

  lemma {:induction false} TotalWithout(writers: map<nat, Writer>, w: nat, f: Writer -> nat)
    requires w in writers
    ensures Total(writers, f) == Total(writers - {w}, f) + f(writers[w])
    decreases |writers|
  {
    var v :| v in writers && Total(writers, f) == Total(writers - {v}, f) + f(writers[v]);
    if v != w {
      Removed(writers, v);
      Removed(writers, w);
      TotalWithout(writers - {v}, w, f);
      TotalWithout(writers - {w}, v, f);
      assert writers - {v} - {w} == writers - {w} - {v};
    }
  }

  lemma TotalChanges(writers: map<nat, Writer>, w: nat, x: Writer, f: Writer -> nat)
    requires w in writers
    ensures Total(writers[w := x], f) + f(writers[w]) == Total(writers, f) + f(x)
  {
    TotalWithout(writers, w, f);
    TotalWithout(writers[w := x], w, f);
    assert writers[w := x] - {w} == writers - {w};
  }

  // ---------------------------------------------------------------------------------------------
  // The measure
  // ---------------------------------------------------------------------------------------------

  /** What a set space event is worth: with packets in the ring it may wake a writer in vain. */
  function SpaceWorth(c: nat, empty: bool): nat {
    if empty then c + 12 else 3 * c + 37
  }

  /** What a set data event is worth. */
  function DataWorth(c: nat): nat {
    2 * c + 17
  }

  function ReaderRank(c: nat, empty: bool, r: ReaderPc): nat {
    match r
    case Waiting => 1
    case ResettingData => 0
    case Opening => 2 * c + 16
    case Reading(_, got) => if |got| <= c then 2 * c + 15 - |got| else 0
    case SignallingSpace(_, again, _) => SpaceWorth(c, empty) + if again then 2 * c + 18 else 2
    case Dispatching(_) => 2 * c + 17
    case BrokenReader => 0
    case DeadReader(_) => 0
  }

  /** Waiting for the mutex. */
  function MutexRank(c: nat): nat {
    3 * c + 30
  }

  function AfterRank(c: nat, next: AfterPacket): nat {
    match next
    case Again(_) => 6 * c + 60
    case Park => 3
    case Finish => MutexRank(c) + 2
  }

  function WriterRank(c: nat, empty: bool, x: Writer): nat {
    if !x.alive then 0
    else match x.pc
      case Idle => if x.queue.waitingForSpace then 2 else if x.queue.waitingForMutex then MutexRank(c) else 0
      case AcquiredMutex => 3 * c + 28
      case ResettingSpace => 1
      case Starting(count) => if count > 0 then 6 * c + 59 else if empty then c + 6 else 3 * c + 26
      case Copying(_, _, _, _, done) => if done <= c then c + 5 - done else 0
      case Signalling(signal, next, _) => AfterRank(c, next) + if signal then DataWorth(c) else 0
      case Releasing => MutexRank(c) + 1
      case BrokenWriter => 0
  }

  function LeftOf(x: Writer): nat {
    if Left(x.queue) < 0 then 0 else Left(x.queue)
  }

  ghost function Unsent(s: State): nat {
    Total(s.writers, LeftOf)
  }

  function Events(c: nat, empty: bool, dataSet: bool, spaceSet: bool, r: ReaderPc): nat {
    (if dataSet then DataWorth(c) else 0) + (if spaceSet then SpaceWorth(c, empty) else 0) + ReaderRank(c, empty, r)
  }

  ghost function Bustle(s: State): nat {
    var c, empty := s.cfg.capacity, s.ring == [];
    Events(c, empty, s.dataSet, s.spaceSet, s.reader) + Total(s.writers, x => WriterRank(c, empty, x))
  }

  datatype Size = Size(unsent: nat, packets: nat, bustle: nat)

  ghost function SizeOf(s: State): Size {
    Size(Unsent(s), |s.ring|, Bustle(s))
  }

  predicate Less(a: Size, b: Size) {
    || a.unsent < b.unsent
    || (a.unsent == b.unsent && a.packets < b.packets)
    || (a.unsent == b.unsent && a.packets == b.packets && a.bustle < b.bustle)
  }

  /** Less is left to send, or else fewer packets to read, or else fewer steps to make in vain. */
  ghost predicate Smaller(s: State, s': State) {
    Less(SizeOf(s'), SizeOf(s))
  }

  // ---------------------------------------------------------------------------------------------
  // Every step of the reader or a writer makes it smaller
  // ---------------------------------------------------------------------------------------------

  lemma ReaderOnly(s: State, s': State)
    requires s'.cfg == s.cfg && s'.ring == s.ring && s'.writers == s.writers
    requires var c, empty := s.cfg.capacity, s.ring == [];
             Events(c, empty, s'.dataSet, s'.spaceSet, s'.reader) < Events(c, empty, s.dataSet, s.spaceSet, s.reader)
    ensures Smaller(s, s')
  {
  }

  lemma ReadingShrinks(s: State)
    requires Inv(s) && s.reader.Reading?
    ensures Smaller(s, ReadOn(s))
  {
    DecodeInvertsEncode(s.ring[0], s.cfg.headerSize);
    RingHeadPacket(s);
    if |s.reader.got| < |Encode(s.ring[0], s.cfg.headerSize)| {
      ReadOnCopies(s);
      ReaderOnly(s, ReadOn(s));
    } else {
      ReadOnConsumes(s);
    }
  }

  lemma ReaderShrinks(s: State)
    requires Inv(s) && WakeInv(s) && ReaderEnabled(s)
    ensures Smaller(s, ReaderStep(s))
  {
    if s.reader.Reading? {
      ReadingShrinks(s);
    } else if s.reader == Opening {
      OpeningShrinks(s);
    } else {
      EventsShrink(s);
      ReaderOnly(s, ReaderStep(s));
    }
  }

  lemma OpeningShrinks(s: State)
    requires RingOk(s) && ReaderEnabled(s) && s.reader == Opening
    ensures Smaller(s, ReaderStep(s))
  {
    OpeningSees(s);
    ReaderOnly(s, ReaderStep(s));
  }

  lemma EventsShrink(s: State)
    requires ReaderEnabled(s) && ReaderOk(s) && s.reader != Opening && !s.reader.Reading?
    requires s.reader.ResettingData? ==> s.dataSet
    ensures var s', c, empty := ReaderStep(s), s.cfg.capacity, s.ring == [];
            && s'.cfg == s.cfg && s'.ring == s.ring && s'.writers == s.writers
            && Events(c, empty, s'.dataSet, s'.spaceSet, s'.reader) < Events(c, empty, s.dataSet, s.spaceSet, s.reader)
  {
  }

  lemma WriterOnly(s: State, s': State, w: nat)
    requires w in s.writers && w in s'.writers && s'.writers == s.writers[w := s'.writers[w]]
    requires s'.cfg == s.cfg && s'.ring == s.ring && LeftOf(s'.writers[w]) == LeftOf(s.writers[w])
    requires var c, empty := s.cfg.capacity, s.ring == [];
             Events(c, empty, s'.dataSet, s'.spaceSet, s'.reader) + WriterRank(c, empty, s'.writers[w])
             < Events(c, empty, s.dataSet, s.spaceSet, s.reader) + WriterRank(c, empty, s.writers[w])
    ensures Smaller(s, s')
  {
    var c, empty := s.cfg.capacity, s.ring == [];
    TotalChanges(s.writers, w, s'.writers[w], LeftOf);
    TotalChanges(s.writers, w, s'.writers[w], x => WriterRank(c, empty, x));
  }

  lemma CopyShrinks(s: State, w: nat)
    requires Inv(s) && WriterEnabled(s, w) && s.writers[w].pc.Copying?
    ensures Smaller(s, CopyOn(s, w))
  {
    var x := s.writers[w];
    CopyFacts(s, w);
    WriterFacts(s, w);
    DecodeInvertsEncode(x.pc.packet, s.cfg.headerSize);
    if x.pc.done < |Encode(x.pc.packet, s.cfg.headerSize)| {
      WriterOnly(s, CopyOn(s, w), w);
    } else {
      PublishShrinks(s, w);
    }
  }

  lemma PublishShrinks(s: State, w: nat)
    requires Inv(s) && WriterEnabled(s, w) && s.writers[w].pc.Copying?
    requires s.writers[w].pc.done >= |Encode(s.writers[w].pc.packet, s.cfg.headerSize)|
    ensures Smaller(s, CopyOn(s, w))
  {
    var x := s.writers[w];
    CopyFacts(s, w);
    WriterFacts(s, w);
    DecodeInvertsEncode(x.pc.packet, s.cfg.headerSize);
    PublishSetsEvent(s, w);
    PublishingSends(s.cfg, FeedAll(s.assembly, s.ring), w, x, true);
    TotalChanges(s.writers, w, AfterPublishing(x, true), LeftOf);
  }

  /** A writer that finds no room in its first turn finds packets in the ring. */
  lemma NoRoomMeansPackets(s: State, w: nat)
    requires Inv(s) && WriterEnabled(s, w) && s.writers[w].pc.Starting?
    ensures var x, pc := s.writers[w], WriterStep(s, w).writers[w].pc;
            || (pc.Copying? && pc.done == 0)
            || (pc.Signalling? && x.pc.count > 0 && pc.next == Finish)
            || (pc.Signalling? && x.pc.count == 0 && pc.next == Park && s.ring != [])
  {
    var x := s.writers[w];
    WriterFacts(s, w);
    assert |Contents(s.cells, s.head, s.tail)| == Used(s.head, s.tail, |s.cells|);
    if x.queue.pending != [] {
      DecodeInvertsEncode(FrontPacket(s.cfg, w, x.queue), s.cfg.headerSize);
    }
  }

  lemma StartShrinks(s: State, w: nat)
    requires Inv(s) && WriterEnabled(s, w) && s.writers[w].pc.Starting?
    ensures Smaller(s, WriterStep(s, w))
  {
    NoRoomMeansPackets(s, w);
    WriterOnly(s, WriterStep(s, w), w);
  }

  lemma WriterShrinks(s: State, w: nat)
    requires Inv(s) && WakeInv(s) && WriterEnabled(s, w)
    ensures Smaller(s, WriterStep(s, w))
  {
    WriterFacts(s, w);
    if s.writers[w].pc.Copying? {
      CopyShrinks(s, w);
    } else if s.writers[w].pc.Starting? {
      StartShrinks(s, w);
    } else {
      if Unlocked(s.writers[w].pc) { WakingStepShrinks(s, w); } else { EndingStepShrinks(s, w); }
      WriterOnly(s, WriterStep(s, w), w);
    }
  }

  /** Between its transactions a writer pays for the event it sets with its own rank. */
  ghost predicate QuietStep(s: State, s': State, w: nat)
    requires w in s.writers
  {
    && s'.cfg == s.cfg && s'.ring == s.ring && w in s'.writers && s'.writers == s.writers[w := s'.writers[w]]
    && s'.writers[w].queue.pending == s.writers[w].queue.pending
    && s'.writers[w].queue.written == s.writers[w].queue.written
    && var c, empty := s.cfg.capacity, s.ring == [];
       Events(c, empty, s'.dataSet, s'.spaceSet, s'.reader) + WriterRank(c, empty, s'.writers[w])
       < Events(c, empty, s.dataSet, s.spaceSet, s.reader) + WriterRank(c, empty, s.writers[w])
  }

  lemma WakingStepShrinks(s: State, w: nat)
    requires WriterEnabled(s, w) && Unlocked(s.writers[w].pc)
    requires FlagsOk(s.writers[w]) && (s.writers[w].pc.ResettingSpace? ==> s.spaceSet)
    ensures QuietStep(s, WriterStep(s, w), w)
  {
  }

  lemma EndingStepShrinks(s: State, w: nat)
    requires WriterEnabled(s, w) && FlagsOk(s.writers[w])
    requires s.writers[w].pc.Signalling? || s.writers[w].pc.Releasing?
    ensures QuietStep(s, WriterStep(s, w), w)
  {
  }

  // ---------------------------------------------------------------------------------------------
  // Coming to rest
  // ---------------------------------------------------------------------------------------------

  /** A step of the reader or of a writer. */
  ghost predicate Moves(s: State, s': State) {
    || (ReaderEnabled(s) && s' == ReaderStep(s))
    || exists w :: WriterEnabled(s, w) && s' == WriterStep(s, w)
  }

  lemma MoveIsStep(s: State, s': State) returns (a: Action)
    requires Moves(s, s')
    ensures (a.StepReader? || a.StepWriter?) && Enabled(s, a) && s' == Apply(s, a)
  {
    a := StepReader;
    if !(ReaderEnabled(s) && s' == ReaderStep(s)) {
      var w :| WriterEnabled(s, w) && s' == WriterStep(s, w);
      a := StepWriter(w);
    }
  }

  lemma MoveShrinks(s: State, s': State)
    requires Reachable(s) && Moves(s, s')
    ensures Reachable(s') && Smaller(s, s')
  {
    ReachableInv(s);
    ReachableWake(s);
    var a := MoveIsStep(s, s');
    OneStep(s, s', a);
    ReachableGoesOn(s, [a]);
    if a.StepReader? { ReaderShrinks(s); } else { WriterShrinks(s, a.w); }
  }

  lemma ReachableGoesOn(s: State, actions: seq<Action>)
    requires Reachable(s) && IsRun(s, actions)
    ensures Reachable(Exec(s, actions))
  {
    var s0, before :| Initial(s0) && IsRun(s0, before) && Exec(s0, before) == s;
    RunsJoin(s0, before, actions);
    assert Exec(s0, before + actions) == Exec(s, actions);
  }

  /** A schedule of the steps of the reader and the writers, up to the moment when none is possible. */
  ghost predicate IsSchedule(f: nat -> State) {
    forall k: nat :: Moves(f(k), f(k + 1)) || (Quiescent(f(k)) && f(k + 1) == f(k))
  }

  lemma {:induction false} ScheduleIsReachable(f: nat -> State, n: nat)
    requires Reachable(f(0)) && IsSchedule(f)
    ensures Reachable(f(n))
  {
    if n > 0 {
      ScheduleIsReachable(f, n - 1);
      assert Moves(f(n - 1), f(n - 1 + 1)) || f(n) == f(n - 1);
      if f(n) != f(n - 1) { MoveShrinks(f(n - 1), f(n)); }
    }
  }

  /** No descent goes on for ever. */
  lemma {:induction false} DescentEnds(size: nat -> Size, rest: nat -> bool, i: nat) returns (n: nat)
    requires forall k: nat :: rest(k) || Less(size(k + 1), size(k))
    ensures i <= n && rest(n)
    decreases size(i).unsent, size(i).packets, size(i).bustle
  {
    n := i;
    if !rest(i) { n := DescentEnds(size, rest, i + 1); }
  }

  /** However the steps are scheduled, at some moment none is possible. */
  lemma ComesToRest(f: nat -> State) returns (n: nat)
    requires Reachable(f(0)) && IsSchedule(f)
    ensures Quiescent(f(n)) && Reachable(f(n))
  {
    var size: nat -> Size, rest: nat -> bool := (k: nat) => SizeOf(f(k)), (k: nat) => Quiescent(f(k));
    forall k: nat ensures rest(k) || Less(size(k + 1), size(k)) {
      ScheduleIsReachable(f, k);
      if !Quiescent(f(k)) { MoveShrinks(f(k), f(k + 1)); }
    }
    n := DescentEnds(size, rest, 0);
    ScheduleIsReachable(f, n);
  }

  /** In such a run nobody dies: the reader stays alive, and nothing gets stranded. */
  lemma {:induction false} NobodyDies(f: nat -> State, n: nat)
    requires !f(0).reader.DeadReader? && IsSchedule(f)
    ensures !f(n).reader.DeadReader? && (f(n).stranded ==> f(0).stranded)
  {
    if n > 0 {
      var k := n - 1;
      NobodyDies(f, k);
      MoveKillsNobody(f(k), f(k + 1));
    }
  }

  lemma MoveKillsNobody(s: State, s': State)
    requires (Moves(s, s') || s' == s) && !s.reader.DeadReader?
    ensures !s'.reader.DeadReader? && (s'.stranded ==> s.stranded)
  {
    if s' == s { return; }
    var a := MoveIsStep(s, s');
    if a.StepWriter? {
      WriterWakes(s, a.w);
    } else if s.reader.Reading? {
      ReadOnFrame(s);
    }
  }

  /**
    Everything gets through.  From any reachable state with the reader alive, and for any schedule of
    the reader's and the writers' steps without new sends and deaths: after finitely many steps
    nothing can move, every living process has sent all it had, and, unless a packet was stranded
    before, everything committed has been dispatched.
   */
  lemma EverythingGetsThrough(f: nat -> State) returns (n: nat)
    requires Reachable(f(0)) && !f(0).reader.DeadReader? && IsSchedule(f)
    ensures Quiescent(f(n)) && Reachable(f(n))
    ensures forall w | Living(f(n), w) :: f(n).writers[w].queue.pending == []
    ensures !f(0).stranded ==> f(n).ring == [] && f(n).dispatched == Messages(f(n).committed)
  {
    n := ComesToRest(f);
    NobodyDies(f, n);
    QuiescenceMeansDelivered(f(n));
  }
}
