/** What the channel promises, for every run from every initial state. */
module ChannelTheorems {
  import opened Ring
  import opened Basics
  import opened Wire
  import opened Channel
  import opened ChannelInvariant
  import opened ChannelWakeups
  import opened ChannelAccounts

  ghost predicate Reachable(s: State) {
    exists s0, actions :: Initial(s0) && IsRun(s0, actions) && Exec(s0, actions) == s
  }

  lemma ReachableInv(s: State)
    requires Reachable(s)
    ensures Inv(s)
  {
    var s0, actions :| Initial(s0) && IsRun(s0, actions) && Exec(s0, actions) == s;
    InitialInv(s0);
    RunKeepsInv(s0, actions);
  }

  lemma ReachableWake(s: State)
    requires Reachable(s)
    ensures WakeInv(s)
  {
    var s0, actions :| Initial(s0) && IsRun(s0, actions) && Exec(s0, actions) == s;
    InitialInv(s0);
    RunKeepsWake(s0, actions);
  }

  lemma ReachableAccounts(s: State)
    requires Reachable(s)
    ensures AccountInv(s)
  {
    var s0, actions :| Initial(s0) && IsRun(s0, actions) && Exec(s0, actions) == s;
    RunKeepsAccounts(s0, actions);
  }

  // ---------------------------------------------------------------------------------------------
  // Delivery
  // ---------------------------------------------------------------------------------------------

  /**
    End-to-end delivery.  Whatever the interleaving, the message sizes, the deaths and the timeouts:
    what the reader has dispatched is, byte for byte and in commit order, a prefix of the messages
    whose last packet was published; nothing else is lost or invented on the way, because the rest
    is in the reader's hands or completed by the packets in the ring.
   */
  lemma EndToEndDelivery(s: State)
    requires Reachable(s)
    ensures s.dispatched <= Messages(s.committed)
    ensures Messages(s.committed) == s.dispatched + InFlight(s.reader) + CompletesAll(s.assembly, s.ring)
    ensures s.reader == Waiting && s.head == s.tail ==> s.dispatched == Messages(s.committed)
  {
    ReachableInv(s);
    if s.reader == Waiting && s.head == s.tail {
      EmptyRing(s);
    }
  }

  lemma EmptyRing(s: State)
    requires RingOk(s)
    ensures s.head == s.tail <==> s.ring == []
  {
    if s.ring != [] {
      RingHeadPacket(s);
    } else {
      assert |Contents(s.cells, s.head, s.tail)| == 0;
    }
  }

  /** Only what a process really sent is ever committed in its name. */
  lemma CommitsWereAccepted(s: State, i: nat)
    requires Reachable(s) && i < |s.committed|
    ensures s.committed[i].source in s.writers
    ensures s.committed[i].entry in s.writers[s.committed[i].source].ledger.accepted
  {
    ReachableAccounts(s);
    var w := s.committed[i].source;
    var l := s.writers[w].ledger;
    assert AccountOk(l, s.writers[w].queue.pending, By(s.committed, w));
    var k := ByIndex(s.committed, w, i);
    assert By(s.committed, w)[k] == s.committed[i].entry;
    SuccessIsAccepted(l, s.writers[w].queue.pending, s.committed[i].entry);
  }

  /** The messages of one process are committed in the order of sending. */
  lemma CommitsAreInOrder(s: State, i: nat, j: nat)
    requires Reachable(s) && i < j < |s.committed| && s.committed[i].source == s.committed[j].source
    ensures s.committed[i].entry.id < s.committed[j].entry.id
  {
    ReachableAccounts(s);
    var w := s.committed[i].source;
    var pending := s.writers[w].queue.pending;
    assert AccountOk(s.writers[w].ledger, pending, By(s.committed, w));
    var a := ByIndex(s.committed, w, i);
    var b := ByIndex(s.committed, w, j);
    ByIndexMonotone(s.committed, w, i, j);
    assert (By(s.committed, w) + pending)[a] == s.committed[i].entry;
    assert (By(s.committed, w) + pending)[b] == s.committed[j].entry;
  }

  /** The place of the i-th committed message among its sender's. */
  ghost function ByIndex(cs: seq<Sent>, w: nat, i: nat): (k: nat)
    requires i < |cs| && cs[i].source == w
    ensures k < |By(cs, w)| && By(cs, w)[k] == cs[i].entry
  {
    if i == |cs| - 1 then |By(cs[..|cs| - 1], w)| else ByIndex(cs[..|cs| - 1], w, i)
  }

  lemma {:induction false} ByIndexMonotone(cs: seq<Sent>, w: nat, i: nat, j: nat)
    requires i < j < |cs| && cs[i].source == w && cs[j].source == w
    ensures ByIndex(cs, w, i) < ByIndex(cs, w, j)
  {
    if j < |cs| - 1 {
      ByIndexMonotone(cs[..|cs| - 1], w, i, j);
    }
  }

  lemma SuccessIsAccepted(l: Ledger, pending: seq<Entry>, e: Entry)
    requires multiset(l.accepted) == Places(l, pending)
    requires e in l.toldSuccessful + l.successful
    ensures e in l.accepted
  {
    assert e in l.toldSuccessful || e in l.successful;
    assert e in multiset(l.toldSuccessful) || e in multiset(l.successful);
    assert e in multiset(l.accepted);
  }

  /** None of the asserts of the inbound and outbound queues fails, and the shared positions are never garbage. */
  lemma AssertsNeverFail(s: State)
    requires Reachable(s)
    ensures s.reader != BrokenReader
    ensures forall w | Living(s, w) :: s.writers[w].pc != BrokenWriter
    ensures s.head <= s.cfg.capacity && s.tail <= s.cfg.capacity
  {
    ReachableInv(s);
    forall w | Living(s, w) ensures s.writers[w].pc != BrokenWriter {
      WriterFacts(s, w);
    }
  }

  /** Which checks those are: when a step of the reader fails an assert or finds garbage. */
  lemma ReaderChecks(s: State)
    requires ReaderEnabled(s)
    ensures s.reader == Opening ==>
              (ReaderStep(s).reader == BrokenReader
               <==> s.head >= |s.cells| || s.tail >= |s.cells|
                    || 0 < Used(s.head, s.tail, |s.cells|) < s.cfg.headerSize)
    ensures s.reader.Reading? && Positioned(s) && s.reader.tail < |s.cells| && |s.reader.got| < |s.cells| ==>
              var h, got, last := s.cfg.headerSize, s.reader.got, s.assembly.last;
              (ReaderStep(s).reader == BrokenReader
               <==> |got| >= h
                    && match DecodeHeader(got[..h])
                       case None => true
                       case Some(header) =>
                         || Used(s.head, s.reader.tail, |s.cells|) < h + header.size
                         || (header.sequence != 0
                             && (last.last || header.source != last.source || header.kind != last.kind
                                 || header.sequence != last.sequence + 1)))
    ensures !s.reader.Opening? && !s.reader.Reading? ==> ReaderStep(s).reader != BrokenReader
  {
  }

  /** And when a step of a writer, or a report, does. */
  lemma WriterChecks(s: State, w: nat)
    requires WriterEnabled(s, w)
    ensures var q, pc, pc' := s.writers[w].queue, s.writers[w].pc, WriterStep(s, w).writers[w].pc;
            match pc
            case ResettingSpace => pc' == BrokenWriter <==> !q.hasWriteMutex
            case Starting(count) =>
              pc' == BrokenWriter
              <==> || !q.hasWriteMutex
                   || (q.pending != [] && q.inProgress.Some? && !(count == 0 && q.inProgress == Some(q.pending[0])))
                   || (q.pending != [] && (s.head >= |s.cells| || s.tail >= |s.cells|))
                   || (q.pending != [] && q.written > |q.pending[0].body|)
            case Signalling(_, next, _) =>
              pc' == BrokenWriter <==> next == Park && (!q.hasWriteMutex || q.waitingForSpace)
            case Releasing => pc' == BrokenWriter <==> q.inProgress.Some?
            case _ => !pc.Copying? ==> pc' != BrokenWriter
    ensures s.writers[w].pc.Idle? ==>
              (Report(s, w).writers[w].pc == BrokenWriter
               <==> s.writers[w].queue.pending != []
                    && s.writers[w].queue.waitingForSpace == s.writers[w].queue.waitingForMutex)
  {
  }

  /** The reader signals space after every look at the ring: it always sees some. */
  lemma ReaderAlwaysSignals(s: State)
    requires Reachable(s) && s.reader.SignallingSpace?
    ensures s.reader.room && ReaderStep(s).spaceSet
  {
    ReachableInv(s);
  }

  // ---------------------------------------------------------------------------------------------
  // Overlapping transactions
  // ---------------------------------------------------------------------------------------------

  ghost function Visible(s: State): seq<Cell>
    requires Positioned(s)
  {
    Contents(s.cells, s.head, s.tail)
  }

  /**
    However the reader's and the writers' transactions overlap, the bytes between the shared head
    and tail change in two ways only: the reader takes one whole packet off the front, or the owner
    of the mutex adds one whole packet at the back.  Everything else, in particular a death in the
    middle of a copy, leaves them as they are.
   */
  lemma TransactionsAreAtomic(s: State, a: Action)
    requires Reachable(s) && Enabled(s, a)
    ensures Positioned(s) && Positioned(Apply(s, a))
    ensures var before, after, n := Visible(s), Visible(Apply(s, a)), s.cfg.headerSize;
            || after == before
            || (a.StepReader? && s.ring != [] && before == Encode(s.ring[0], n) + after)
            || (a.StepWriter? && s.owner == Some(a.w) && s.writers[a.w].pc.Copying?
                && after == before + Encode(s.writers[a.w].pc.packet, n))
  {
    ReachableInv(s);
    StepKeepsInv(s, a);
    match a
    case StepReader => ReaderAndRing(s);
    case StepWriter(w) =>
      WriterAndRing(s, w);
      if s.writers[w].pc.Copying? {
        CopyFacts(s, w);
        StreamAppend(s.ring, s.writers[w].pc.packet, s.cfg.headerSize);
      }
    case _ =>
  }

  lemma ReaderAndRing(s: State)
    requires ReaderEnabled(s)
    ensures var s' := ReaderStep(s);
            s'.cfg == s.cfg && (s'.ring == s.ring || (s.ring != [] && s'.ring == s.ring[1..]))
  {
  }

  lemma WriterAndRing(s: State, w: nat)
    requires WriterEnabled(s, w)
    ensures var s' := WriterStep(s, w);
            && s'.cfg == s.cfg
            && (s'.ring == s.ring
                || (s.writers[w].pc.Copying? && s'.ring == s.ring + [s.writers[w].pc.packet]))
  {
  }

  // ---------------------------------------------------------------------------------------------
  // The outbound queue
  // ---------------------------------------------------------------------------------------------

  /** The wait flags, the mutex and the message in progress, whenever the thread is between waits. */
  lemma OutboundQueueInvariant(s: State, w: nat)
    requires Reachable(s) && Living(s, w) && s.writers[w].pc.Idle?
    ensures var q := s.writers[w].queue;
            && (q.pending != [] <==> q.waitingForMutex != q.waitingForSpace)
            && !(q.waitingForMutex && q.waitingForSpace)
            && (q.pending == [] ==> s.owner != Some(w))
            && (q.waitingForSpace <==> s.owner == Some(w))
            && (q.inProgress.Some? ==> q.pending != [] && q.inProgress.value == q.pending[0] && q.waitingForSpace)
  {
    ReachableInv(s);
    WriterFacts(s, w);
  }

  /**
    The write mutex is exclusive: two living writers never both hold it, be they writing, parked
    between two packets, or just back from the wait.
   */
  lemma MutualExclusion(s: State, v: nat, w: nat)
    requires Reachable(s) && Living(s, v) && Living(s, w)
    requires Holds(s.writers[v]) && Holds(s.writers[w])
    ensures v == w
    ensures !Unlocked(s.writers[v].pc) || Parked(s.writers[v]) || s.writers[v].pc.AcquiredMutex?
         || s.writers[v].pc.ResettingSpace?
  {
    ReachableInv(s);
    WriterFacts(s, v);
    WriterFacts(s, w);
  }

  // ---------------------------------------------------------------------------------------------
  // Wake-ups
  // ---------------------------------------------------------------------------------------------

  /** A writer waiting for space and a reader waiting for data never wait for each other. */
  lemma NoLostWakeup(s: State, w: nat)
    requires Reachable(s) && Living(s, w)
    requires s.writers[w].pc.Idle? && s.writers[w].queue.waitingForSpace
    ensures s.dataSet || s.spaceSet || s.reader != Waiting
  {
    ReachableInv(s);
    assert Parked(s.writers[w]);
  }

  /** A living writer is between publishing a packet and signalling it. */
  ghost predicate SignalDue(s: State) {
    exists w :: Living(s, w) && s.writers[w].pc.Signalling? && s.writers[w].pc.published
  }

  /**
    A sleeping reader with its event unset and no signal due has something to read exactly if a
    writer died between publishing a packet, still unread, and signalling it, and nobody has
    signalled since.
   */
  lemma SleepingReaderMissesNothing(s: State)
    requires Reachable(s) && s.reader == Waiting && !s.dataSet && !SignalDue(s)
    ensures s.head != s.tail <==> s.stranded
  {
    ReachableInv(s);
    ReachableWake(s);
    EmptyRing(s);
    AboutToSignalIsDue(s);
  }

  lemma AboutToSignalIsDue(s: State)
    requires Inv(s)
    ensures AboutToSignal(s.owner, s.writers) ==> SignalDue(s)
  {
  }

  /** With the reader alive, a message that is still pending means that somebody can make a step. */
  lemma NoDeadlock(s: State, w: nat)
    requires Reachable(s) && !s.reader.DeadReader?
    requires Living(s, w) && s.writers[w].queue.pending != []
    ensures ReaderEnabled(s) || exists v :: WriterEnabled(s, v)
  {
    ReachableInv(s);
    WriterFacts(s, w);
    if !WriterEnabled(s, w) {
      var x := s.writers[w];
      if x.queue.waitingForSpace {
        NoLostWakeup(s, w);
      } else {
        var v := s.owner.value;
        WriterFacts(s, v);
        if s.writers[v].pc.Idle? && !WriterEnabled(s, v) {
          NoLostWakeup(s, v);
        } else {
          assert WriterEnabled(s, v);
        }
      }
    }
  }

  /** Neither the reader nor any writer can make a step. */
  ghost predicate Quiescent(s: State) {
    !ReaderEnabled(s) && forall v :: !WriterEnabled(s, v)
  }

  /**
    When nothing can move any more and the reader is alive, every living process has sent everything
    it accepted; the ring is empty exactly if no packet was stranded; and everything committed has
    been dispatched exactly if what was stranded completes no message.
   */
  lemma QuiescenceMeansDelivered(s: State)
    requires Reachable(s) && !s.reader.DeadReader? && Quiescent(s)
    ensures forall w | Living(s, w) :: s.writers[w].queue.pending == []
    ensures s.head == s.tail <==> !s.stranded
    ensures s.dispatched == Messages(s.committed) <==> CompletesAll(s.assembly, s.ring) == []
    ensures !s.stranded ==> s.ring == [] && s.dispatched == Messages(s.committed)
  {
    ReachableInv(s);
    forall w | Living(s, w) ensures s.writers[w].queue.pending == [] {
      if s.writers[w].queue.pending != [] { NoDeadlock(s, w); }
    }
    forall w ensures !(Living(s, w) && s.writers[w].pc.Signalling?) {
      assert !WriterEnabled(s, w);
    }
    SleepingReaderMissesNothing(s);
    EmptyRing(s);
    EndToEndDelivery(s);
    assert s.dispatched + [] == s.dispatched;
  }

  // ---------------------------------------------------------------------------------------------
  // A death before the signal
  // ---------------------------------------------------------------------------------------------

  const ENTRY := Entry(0, 0, [7])
  const PACKET := Packet(Header(0, 0, 0, true, 1), [7])
  const CELLS := [Slice(PACKET.header, 0), Data(7)]

  /** One process sends one byte through a ring of two cells; the first `k` cells have been written. */
  function Scene(k: nat, tail: nat, owner: Option<nat>, x: Writer, ring: seq<Packet>, committed: seq<Sent>,
                 stranded: bool): State
    requires k <= 2
  {
    State(Sizes(1, 2), CELLS[..k] + [Data(0), Data(0), Data(0)][k..], 0, tail, owner, false, false, Waiting,
          EMPTY_ASSEMBLY, [], map[0 := x], ring, committed, stranded)
  }

  /** The writer of that byte. */
  function Sender(alive: bool, pc: WriterPc, pending: seq<Entry>, holds: bool, waits: bool): Writer {
    Writer(alive, pc, Queue(pending, holds, waits, false, None, 0, 0),
           Ledger([ENTRY], if pending == [] then [ENTRY] else [], [], [], []))
  }

  function Scene1(): State { Scene(0, 0, None, Sender(true, Idle, [ENTRY], false, true), [], [], false) }
  function Scene2(): State { Scene(0, 0, Some(0), Sender(true, AcquiredMutex, [ENTRY], false, true), [], [], false) }
  function Scene3(): State { Scene(0, 0, Some(0), Sender(true, Starting(0), [ENTRY], true, false), [], [], false) }

  function SceneCopying(k: nat): State
    requires k <= 2
  {
    Scene(k, 0, Some(0), Sender(true, Copying(0, 0, 0, PACKET, k), [ENTRY], true, false), [], [], false)
  }

  function ScenePublished(owner: Option<nat>, alive: bool): State {
    var x := Sender(alive, Signalling(true, Finish, true), [], true, false);
    Scene(2, 2, owner, x, [PACKET], [Sent(0, ENTRY)], !alive)
  }

  lemma PacketCells()
    ensures Encode(PACKET, 1) == CELLS && FrontPacket(Sizes(1, 2), 0, Scene3().writers[0].queue) == PACKET
  {
    assert HeaderCells(PACKET.header, 1) == [Slice(PACKET.header, 0)];
    assert BodyCells(PACKET.body) == [Data(7)];
    assert [7][0..] == [7];
  }

  lemma SceneStarts(s0: State)
    requires s0 == Scene(0, 0, None, FRESH_WRITER, [], [], false)
    ensures Initial(s0) && Leads(s0, Scene3())
  {
    var w: nat := 0;
    assert [] + [ENTRY] == [ENTRY];
    var x := Send(s0, w, 0, [7]).writers[w];
    assert x == Sender(true, Idle, [ENTRY], false, true);
    assert s0.writers[w := x] == map[w := x];
    OneRun(s0, Scene1(), DoSend(w, 0, [7]));
    SceneStep(s0, Scene1(), Scene2());
    SceneStep(s0, Scene2(), Scene3());
  }

  lemma SceneStep(s0: State, s: State, s': State)
    requires Leads(s0, s) && WriterEnabled(s, 0) && WriterStep(s, 0) == s'
    ensures Leads(s0, s')
    ensures Initial(s0) ==> Reachable(s')
  {
    RunGoesOn(s0, s, s', StepWriter(0));
  }

  lemma SceneCopies(k: nat)
    requires k < 2
    ensures WriterEnabled(SceneCopying(k), 0) && WriterStep(SceneCopying(k), 0) == SceneCopying(k + 1)
  {
    PacketCells();
    var s := SceneCopying(k);
    var x := SceneCopying(k + 1).writers[0];
    assert s.writers[0 := x] == map[0 := x];
    assert CopyOn(s, 0).cells == SceneCopying(k + 1).cells;
  }

  lemma SceneOpens()
    ensures WriterEnabled(Scene3(), 0) && WriterStep(Scene3(), 0) == SceneCopying(0)
  {
    PacketCells();
    var x := SceneCopying(0).writers[0];
    assert Scene3().writers[0 := x] == map[0 := x];
  }

  lemma ScenePublishes()
    ensures WriterEnabled(SceneCopying(2), 0) && WriterStep(SceneCopying(2), 0) == ScenePublished(Some(0), true)
  {
    PacketCells();
    var s := SceneCopying(2);
    var x := ScenePublished(Some(0), true).writers[0];
    assert [] + [ENTRY] == [ENTRY] && [ENTRY][1..] == [];
    assert AfterPublishing(s.writers[0], true) == x;
    assert s.writers[0 := x] == map[0 := x];
  }

  lemma SceneEnds(s0: State)
    requires Initial(s0) && Leads(s0, ScenePublished(Some(0), true))
    ensures Reachable(ScenePublished(None, false))
  {
    var s, x := ScenePublished(Some(0), true), ScenePublished(None, false).writers[0];
    assert s.writers[0 := x] == map[0 := x];
    RunGoesOn(s0, s, ScenePublished(None, false), KillWriter(0));
  }

  /**
    The exception does happen: a process sends one byte and is killed after publishing it.  Then
    nothing can move, and the committed message stays in the ring.
   */
  lemma StrandingHappens() returns (s: State)
    ensures Reachable(s) && !s.reader.DeadReader? && Quiescent(s)
    ensures s.stranded && s.committed != [] && s.dispatched == [] && s.head != s.tail
  {
    var s0 := Scene(0, 0, None, FRESH_WRITER, [], [], false);
    SceneStarts(s0);
    SceneOpens();
    SceneStep(s0, Scene3(), SceneCopying(0));
    SceneCopies(0);
    SceneStep(s0, SceneCopying(0), SceneCopying(1));
    SceneCopies(1);
    SceneStep(s0, SceneCopying(1), SceneCopying(2));
    ScenePublishes();
    SceneStep(s0, SceneCopying(2), ScenePublished(Some(0), true));
    SceneEnds(s0);
    s := ScenePublished(None, false);
  }

  ghost predicate Leads(s0: State, s: State) {
    exists actions :: IsRun(s0, actions) && Exec(s0, actions) == s
  }

  lemma OneRun(s0: State, s: State, a: Action)
    requires Enabled(s0, a) && s == Apply(s0, a)
    ensures Leads(s0, s)
  {
    OneStep(s0, s, a);
  }

  lemma RunGoesOn(s0: State, s: State, s': State, a: Action)
    requires Leads(s0, s) && Enabled(s, a) && s' == Apply(s, a)
    ensures Leads(s0, s')
    ensures Initial(s0) ==> Reachable(s')
  {
    var actions :| IsRun(s0, actions) && Exec(s0, actions) == s;
    OneStep(s, s', a);
    RunsJoin(s0, actions, [a]);
    assert IsRun(s0, actions + [a]) && Exec(s0, actions + [a]) == s';
  }

  lemma OneStep(s: State, s': State, a: Action)
    requires Enabled(s, a) && s' == Apply(s, a)
    ensures IsRun(s, [a]) && Exec(s, [a]) == s'
  {
    assert [a][1..] == [];
    assert IsRun(s', [a][1..]) && Exec(s', [a][1..]) == s';
  }

  lemma {:induction false} RunsJoin(s: State, a: seq<Action>, b: seq<Action>)
    requires IsRun(s, a)
    ensures IsRun(s, a + b) <==> IsRun(Exec(s, a), b)
    ensures IsRun(s, a + b) ==> Exec(s, a + b) == Exec(Exec(s, a), b)
    decreases a
  {
    if a == [] {
      assert a + b == b;
    } else {
      assert (a + b)[1..] == a[1..] + b;
      RunsJoin(Apply(s, a[0]), a[1..], b);
    }
  }

  // ---------------------------------------------------------------------------------------------
  // Completion accounting
  // ---------------------------------------------------------------------------------------------

  lemma {:induction false} IdsAreUnique(es: seq<Entry>, e: Entry)
    requires forall i | 0 <= i < |es| :: es[i].id == i
    ensures multiset(es)[e] == if e in es then 1 else 0
    ensures e in es ==> e.id < |es|
  {
    if es != [] {
      var front, last := es[..|es| - 1], es[|es| - 1];
      assert es == front + [last];
      IdsAreUnique(front, e);
    }
  }

  /** Every accepted entry is in exactly one of the five places, and nothing else is in any of them. */
  lemma ExactlyOnePlace(s: State, w: nat, e: Entry)
    requires Reachable(s) && w in s.writers
    ensures var x := s.writers[w];
            multiset(x.queue.pending)[e] + multiset(x.ledger.successful)[e] + multiset(x.ledger.failed)[e]
            + multiset(x.ledger.toldSuccessful)[e] + multiset(x.ledger.toldFailed)[e]
            == if e in x.ledger.accepted then 1 else 0
  {
    ReachableAccounts(s);
    var x := s.writers[w];
    assert AccountOk(x.ledger, x.queue.pending, By(s.committed, w));
    IdsAreUnique(x.ledger.accepted, e);
    assert multiset(x.ledger.accepted)[e] == Places(x.ledger, x.queue.pending)[e];
  }

  lemma {:induction false} ByMembers(cs: seq<Sent>, w: nat, e: Entry)
    ensures e in By(cs, w) <==> Sent(w, e) in cs
  {
    if cs != [] {
      var front, last := cs[..|cs| - 1], cs[|cs| - 1];
      assert cs == front + [last];
      ByMembers(front, w, e);
    }
  }

  /** An entry counts as successful, or was reported so, exactly when its last packet was published. */
  lemma SuccessMeansCommitted(s: State, w: nat, e: Entry)
    requires Reachable(s) && w in s.writers
    ensures e in s.writers[w].ledger.successful || e in s.writers[w].ledger.toldSuccessful
       <==> Sent(w, e) in s.committed
  {
    ReachableAccounts(s);
    var l := s.writers[w].ledger;
    assert AccountOk(l, s.writers[w].queue.pending, By(s.committed, w));
    ByMembers(s.committed, w, e);
    assert e in l.toldSuccessful + l.successful <==> e in By(s.committed, w);
  }

  ghost predicate CountedFailed(s: State, w: nat, e: Entry) {
    w in s.writers && (e in s.writers[w].ledger.failed || e in s.writers[w].ledger.toldFailed)
  }

  lemma FailedIsNotCommitted(s: State, w: nat, e: Entry)
    requires AccountInv(s) && CountedFailed(s, w, e)
    ensures Sent(w, e) !in s.committed
  {
    var x := s.writers[w];
    var l := x.ledger;
    assert AccountOk(l, x.queue.pending, By(s.committed, w));
    IdsAreUnique(l.accepted, e);
    ByMembers(s.committed, w, e);
    assert e in multiset(l.failed) + multiset(l.toldFailed);
  }

  lemma CopyKeepsFailed(s: State, w: nat)
    requires w in s.writers && s.writers[w].pc.Copying?
    ensures var s' := CopyOn(s, w);
            && w in s'.writers && s'.writers == s.writers[w := s'.writers[w]]
            && s'.writers[w].ledger.failed == s.writers[w].ledger.failed
            && s'.writers[w].ledger.toldFailed == s.writers[w].ledger.toldFailed
  {
  }

  lemma StepKeepsFailed(s: State, a: Action, w: nat, e: Entry)
    requires Enabled(s, a) && CountedFailed(s, w, e)
    ensures CountedFailed(Apply(s, a), w, e)
  {
    match a
    case StepReader => ReaderMovesNoEntry(s);
    case StepWriter(v) => if s.writers[v].pc.Copying? { CopyKeepsFailed(s, v); } else { WriterMovesNoEntry(s, v); }
    case _ =>
  }

  /** A message reported failed is never dispatched, in whatever way the run goes on. */
  lemma FailedForever(s: State, actions: seq<Action>, w: nat, e: Entry)
    requires Reachable(s) && IsRun(s, actions) && CountedFailed(s, w, e)
    ensures Sent(w, e) !in Exec(s, actions).committed
  {
    ReachableAccounts(s);
    RunKeepsAccounts(s, actions);
    RunKeepsFailed(s, actions, w, e);
    FailedIsNotCommitted(Exec(s, actions), w, e);
  }

  lemma {:induction false} RunKeepsFailed(s: State, actions: seq<Action>, w: nat, e: Entry)
    requires IsRun(s, actions) && CountedFailed(s, w, e)
    ensures CountedFailed(Exec(s, actions), w, e)
    decreases actions
  {
    if actions != [] {
      StepKeepsFailed(s, actions[0], w, e);
      RunKeepsFailed(Apply(s, actions[0]), actions[1..], w, e);
    }
  }
}
