/** What every step of the channel keeps. */
module ChannelInvariant {
  import opened Ring
  import opened Basics
  import opened Wire
  import opened Channel

  // ---------------------------------------------------------------------------------------------
  // The invariant
  // ---------------------------------------------------------------------------------------------

  /** The bytes between the shared head and tail are exactly the published packets. */
  ghost predicate RingOk(s: State) {
    && |s.cells| == s.cfg.capacity + 1
    && Positioned(s)
    && Contents(s.cells, s.head, s.tail) == Stream(s.ring, s.cfg.headerSize)
  }

  ghost predicate ReaderOk(s: State) {
    match s.reader
    case Reading(tail, got) =>
      && s.head < |s.cells| && tail < |s.cells| && s.ring != []
      && var e := Encode(s.ring[0], s.cfg.headerSize);
         && |e| <= Used(s.head, tail, |s.cells|)
         && |got| <= |e| && got == e[..|got|]
    case SignallingSpace(deliver, again, room) => (!again ==> deliver == []) && room
    case BrokenReader => false
    case _ => true
  }

  function MessageOf(c: Sent): Message {
    Message(c.source, c.entry.kind, c.entry.body)
  }

  function Messages(cs: seq<Sent>): seq<Message> {
    seq(|cs|, i requires 0 <= i < |cs| => MessageOf(cs[i]))
  }

  /** What was committed is what was dispatched, what is on its way, and what the ring completes. */
  ghost predicate DeliveryOk(s: State) {
    && InSequence(s.assembly, s.ring)
    && Messages(s.committed) == s.dispatched + InFlight(s.reader) + CompletesAll(s.assembly, s.ring)
  }

  /** The outbound queue's flags, for every place its thread can be at. */
  ghost predicate QueueOk(pc: WriterPc, q: Queue) {
    && (forall e | e in q.pending :: e.body != [])
    && (q.inProgress.None? ==> q.written == 0 && q.sequence == 0)
    && (q.inProgress.Some? ==> q.pending != [])
    && (q.inProgress.Some? ==> q.inProgress.value == q.pending[0] && 0 < q.written < |q.pending[0].body|)
    && (!Unlocked(pc) ==> q.hasWriteMutex && !q.waitingForMutex && !q.waitingForSpace)
    && match pc
       case Idle =>
         && (q.pending == [] ==> !q.waitingForMutex && !q.waitingForSpace)
         && (q.pending != [] ==> q.waitingForMutex != q.waitingForSpace)
         && q.hasWriteMutex == q.waitingForSpace
         && (q.inProgress.Some? ==> q.waitingForSpace)
       case AcquiredMutex =>
         q.pending != [] && q.waitingForMutex && !q.waitingForSpace && !q.hasWriteMutex && q.inProgress.None?
       case ResettingSpace =>
         q.pending != [] && q.waitingForSpace && !q.waitingForMutex && q.hasWriteMutex
       case Starting(count) => (count == 0 ==> q.pending != []) && (count != 0 ==> q.inProgress.None?)
       case Copying(count, _, _, _, _) => q.pending != [] && (count != 0 ==> q.inProgress.None?)
       case Signalling(signal, Again(count), _) => q.pending != [] && count != 0 && q.inProgress.None?
       case Signalling(signal, Park, _) => q.pending != [] && signal
       case Signalling(signal, Finish, _) => q.inProgress.None?
       case Releasing => q.inProgress.None?
       case BrokenWriter => false
  }

  ghost predicate FlagsOk(x: Writer) {
    QueueOk(x.pc, x.queue)
  }

  /** A half-written message is the front one, and the ring ends with exactly its written prefix. */
  ghost predicate ProgressOk(end: Assembly, w: nat, q: Queue) {
    q.inProgress.Some? && q.written <= |q.inProgress.value.body| ==>
      MidMessage(end, w, q.inProgress.value.kind, q.inProgress.value.body, q.written, q.sequence + 1)
  }

  /** A copy in progress stays within the free cells, however stale the writer's view of the head is. */
  ghost predicate PacketOk(cfg: Config, cells: seq<Cell>, tail: nat, load: nat, w: nat, pc: WriterPc, q: Queue) {
    pc.Copying? && q.pending != [] && q.written <= |q.pending[0].body| ==>
      var e := Encode(pc.packet, cfg.headerSize);
      && pc.packet == FrontPacket(cfg, w, q)
      && (pc.count != 0 ==> pc.packet.header.last)
      && pc.tail == tail && tail < |cells| && pc.head < |cells|
      && Used(pc.head, tail, |cells|) + |e| <= cfg.capacity < |cells|
      && load + |e| <= cfg.capacity
      && pc.done <= |e|
      && Copied(cells, tail, e, pc.done)
  }

  ghost predicate CopyOk(cfg: Config, cells: seq<Cell>, tail: nat, load: nat, w: nat, x: Writer) {
    PacketOk(cfg, cells, tail, load, w, x.pc, x.queue)
  }

  ghost predicate Copied(cells: seq<Cell>, tail: nat, e: seq<Cell>, done: nat)
    requires tail < |cells| && done <= |e| <= |cells|
  {
    forall j | 0 <= j < done :: cells[Slot(tail, j, |cells|)] == e[j]
  }

  ghost predicate WriterOk(cfg: Config, cells: seq<Cell>, tail: nat, load: nat, end: Assembly, w: nat, x: Writer) {
    FlagsOk(x) && ProgressOk(end, w, x.queue) && CopyOk(cfg, cells, tail, load, w, x)
  }

  ghost predicate WritersOk(cfg: Config, cells: seq<Cell>, tail: nat, load: nat, end: Assembly,
                            writers: map<nat, Writer>) {
    forall w | w in writers && writers[w].alive :: WriterOk(cfg, cells, tail, load, end, w, writers[w])
  }

  ghost predicate Holds(x: Writer) {
    x.queue.hasWriteMutex || x.pc.AcquiredMutex?
  }

  ghost predicate OwnerOk(owner: Option<nat>, writers: map<nat, Writer>) {
    && (owner.Some? ==> owner.value in writers && writers[owner.value].alive)
    && forall w | w in writers && writers[w].alive :: Holds(writers[w]) <==> owner == Some(w)
  }

  ghost predicate Parked(x: Writer) {
    x.alive && x.pc.Idle? && x.queue.waitingForSpace
  }

  /** Somebody waiting for space can count on the reader. */
  ghost predicate SpaceOk(dataSet: bool, spaceSet: bool, r: ReaderPc, writers: map<nat, Writer>) {
    dataSet || spaceSet || !r.Waiting? || forall w | w in writers :: !Parked(writers[w])
  }

  /** Between publishing a packet and setting the event. */
  ghost predicate AboutToSignal(owner: Option<nat>, writers: map<nat, Writer>) {
    && owner.Some? && owner.value in writers
    && writers[owner.value].pc.Signalling? && writers[owner.value].pc.signal && writers[owner.value].pc.published
  }

  /** A reader that has seen an empty ring and is going to sleep, or sleeps. */
  ghost predicate Drowsy(r: ReaderPc) {
    r.Waiting? || (r.SignallingSpace? && !r.again)
  }

  ghost predicate DataOk(dataSet: bool, stranded: bool, r: ReaderPc, ring: seq<Packet>,
                         owner: Option<nat>, writers: map<nat, Writer>) {
    Drowsy(r) && ring != [] ==> dataSet || stranded || AboutToSignal(owner, writers)
  }

  /** The part of the invariant that is about the bytes and the messages. */
  ghost predicate DataInv(s: State) {
    && RingOk(s) && ReaderOk(s) && DeliveryOk(s)
    && WritersOk(s.cfg, s.cells, s.tail, |Stream(s.ring, s.cfg.headerSize)|, FeedAll(s.assembly, s.ring), s.writers)
  }

  /** The part of the invariant that is about the mutex and the events. */
  ghost predicate ControlInv(s: State) {
    && OwnerOk(s.owner, s.writers)
    && SpaceOk(s.dataSet, s.spaceSet, s.reader, s.writers)
    && DataOk(s.dataSet, s.stranded, s.reader, s.ring, s.owner, s.writers)
  }

  ghost predicate Inv(s: State) {
    DataInv(s) && ControlInv(s)
  }

  // ---------------------------------------------------------------------------------------------
  // The start
  // ---------------------------------------------------------------------------------------------

  lemma InitialInv(s: State)
    requires Initial(s)
    ensures Inv(s)
  {
    assert RingOk(s) by { assert Contents(s.cells, 0, 0) == []; }
    assert DeliveryOk(s) by { assert Messages([]) == []; }
  }

  // ---------------------------------------------------------------------------------------------
  // Steps of the reader
  // ---------------------------------------------------------------------------------------------

  lemma RingHeadPacket(s: State)
    requires RingOk(s) && s.ring != []
    ensures var e := Encode(s.ring[0], s.cfg.headerSize);
            && |e| == s.cfg.headerSize + |s.ring[0].body|
            && |e| <= Used(s.head, s.tail, |s.cells|) <= s.cfg.capacity
            && Contents(s.cells, s.head, s.tail)[..|e|] == e
            && Contents(s.cells, s.head, s.tail)[|e|..] == Stream(s.ring[1..], s.cfg.headerSize)
  {
    DecodeInvertsEncode(s.ring[0], s.cfg.headerSize);
  }

  /** A smaller load is no harm to a writer. */
  lemma LighterLoad(cfg: Config, cells: seq<Cell>, tail: nat, load: nat, load': nat, end: Assembly,
                    writers: map<nat, Writer>)
    requires WritersOk(cfg, cells, tail, load, end, writers) && load' <= load
    ensures WritersOk(cfg, cells, tail, load', end, writers)
  {
    forall w | w in writers && writers[w].alive ensures WriterOk(cfg, cells, tail, load', end, w, writers[w]) {
      assert WriterOk(cfg, cells, tail, load, end, w, writers[w]);
    }
  }

  lemma ConsumeKeepsRing(s: State, got: seq<Cell>)
    requires RingOk(s) && s.ring != [] && got == Encode(s.ring[0], s.cfg.headerSize) && |got| <= |s.cells|
    ensures Contents(s.cells, Slot(s.head, |got|, |s.cells|), s.tail) == Stream(s.ring[1..], s.cfg.headerSize)
    ensures |Stream(s.ring[1..], s.cfg.headerSize)| <= |Stream(s.ring, s.cfg.headerSize)|
  {
    RingHeadPacket(s);
    AdvanceHead(s.cells, s.head, s.tail, |got|);
  }

  lemma ConsumeKeepsDelivery(sent: seq<Message>, dispatched: seq<Message>, a: Assembly, ring: seq<Packet>)
    requires ring != [] && sent == dispatched + [] + CompletesAll(a, ring)
    ensures sent == dispatched + Completes(a, ring[0]) + CompletesAll(Feed(a, ring[0]), ring[1..])
  {
  }

  /** Once something has been taken off, there is room. */
  lemma LessUsed(head: nat, tail: nat, k: nat, n: nat)
    requires head < n && tail < n && 0 < k <= Used(head, tail, n)
    ensures HasRoom(Slot(head, k, n), tail, n)
  {
  }

  lemma ConsumeKeepsData(s: State, header: Header, got: seq<Cell>)
    requires DataInv(s) && s.reader.Reading? && s.reader.got == got
    requires s.ring != [] && got == Encode(s.ring[0], s.cfg.headerSize)
    requires header == s.ring[0].header
    requires |got| <= |s.cells|
    ensures DataInv(Consume(s, header, got))
  {
    var p, s', h := s.ring[0], Consume(s, header, got), s.cfg.headerSize;
    DecodeInvertsEncode(p, h);
    LessUsed(s.head, s.reader.tail, |got|, |s.cells|);
    assert s'.assembly == Feed(s.assembly, p) && s'.reader == SignallingSpace(Completes(s.assembly, p), true, true);
    assert RingOk(s') by { ConsumeKeepsRing(s, got); }
    assert DeliveryOk(s') by { ConsumeKeepsDelivery(Messages(s.committed), s.dispatched, s.assembly, s.ring); }
    assert FeedAll(s'.assembly, s'.ring) == FeedAll(s.assembly, s.ring);
    ConsumeKeepsRing(s, got);
    var end := FeedAll(s.assembly, s.ring);
    LighterLoad(s.cfg, s.cells, s.tail, |Stream(s.ring, h)|, |Stream(s'.ring, h)|, end, s.writers);
  }

  /** The next cell the reader copies is the next cell of the packet. */
  lemma NextCell(s: State, k: nat)
    requires RingOk(s) && s.ring != [] && k < |Encode(s.ring[0], s.cfg.headerSize)|
    ensures k < |s.cells| && s.cells[Slot(s.head, k, |s.cells|)] == Encode(s.ring[0], s.cfg.headerSize)[k]
  {
    var e, c := Encode(s.ring[0], s.cfg.headerSize), Contents(s.cells, s.head, s.tail);
    RingHeadPacket(s);
    assert c[k] == c[..|e|][k];
  }

  lemma HeaderReadBack(p: Packet, h: nat, k: nat)
    requires 0 < h <= k <= |Encode(p, h)|
    ensures DecodeHeader(Encode(p, h)[..k][..h]) == Some(p.header)
  {
    DecodeInvertsEncode(p, h);
    assert Encode(p, h)[..k][..h] == Encode(p, h)[..h];
  }

  /** What lets the reader copy one more cell. */
  ghost predicate MayCopy(s: State) {
    && s.reader.Reading? && Positioned(s) && s.reader.tail < |s.cells| && |s.reader.got| < |s.cells|
    && var h, k := s.cfg.headerSize, |s.reader.got|;
       k < h || (var header := DecodeHeader(s.reader.got[..h]);
                 && header.Some? && Follows(s.assembly, header.value) && k < h + header.value.size
                 && h + header.value.size <= Used(s.head, s.reader.tail, |s.cells|))
  }

  lemma CopiesNext(s: State, got: seq<Cell>)
    requires MayCopy(s) && got == s.reader.got + [s.cells[Slot(s.head, |s.reader.got|, |s.cells|)]]
    ensures ReadOn(s) == s.(reader := Reading(s.reader.tail, got))
  {
  }

  /** In the middle of a packet, one step copies one cell. */
  lemma ReadOnCopies(s: State)
    requires RingOk(s) && s.reader.Reading? && ReaderOk(s) && InSequence(s.assembly, s.ring)
    requires |s.reader.got| < |Encode(s.ring[0], s.cfg.headerSize)|
    ensures ReadOn(s) == s.(reader := s.reader.(got := Encode(s.ring[0], s.cfg.headerSize)[..|s.reader.got| + 1]))
  {
    var k, e := |s.reader.got|, Encode(s.ring[0], s.cfg.headerSize);
    assert k < |s.cells| && s.cells[Slot(s.head, k, |s.cells|)] == e[k] by { NextCell(s, k); }
    assert MayCopy(s) by { GotIsReadable(s); }
    assert e[..k] + [e[k]] == e[..k + 1];
    CopiesNext(s, e[..k + 1]);
  }

  lemma GotIsReadable(s: State)
    requires RingOk(s) && s.reader.Reading? && ReaderOk(s) && InSequence(s.assembly, s.ring)
    requires |s.reader.got| < |Encode(s.ring[0], s.cfg.headerSize)| && |s.reader.got| < |s.cells|
    ensures MayCopy(s)
  {
    var h := s.cfg.headerSize;
    assert |Encode(s.ring[0], h)| == h + s.ring[0].header.size;
    if |s.reader.got| >= h { HeaderReadBack(s.ring[0], h, |s.reader.got|); }
  }

  /** At the end of a packet, the step consumes it. */
  lemma ReadOnConsumes(s: State)
    requires RingOk(s) && s.reader.Reading? && ReaderOk(s) && InSequence(s.assembly, s.ring)
    requires |s.reader.got| == |Encode(s.ring[0], s.cfg.headerSize)|
    ensures var e := Encode(s.ring[0], s.cfg.headerSize);
            s.reader.got == e && |e| <= |s.cells| && ReadOn(s) == Consume(s, s.ring[0].header, e)
  {
    var h, p := s.cfg.headerSize, s.ring[0];
    var e := Encode(p, h);
    assert |e| == h + p.header.size;
    assert e[..|e|] == e;
    HeaderReadBack(p, h, |e|);
  }

  lemma ReadOnKeepsData(s: State)
    requires DataInv(s) && s.reader.Reading?
    ensures DataInv(ReadOn(s))
  {
    if |s.reader.got| < |Encode(s.ring[0], s.cfg.headerSize)| {
      ReadOnCopies(s);
    } else {
      ReadOnConsumes(s);
      ConsumeKeepsData(s, s.ring[0].header, s.reader.got);
    }
  }

  /** A step of the reader that does not touch the ring. */
  lemma ReaderMoves(s: State, s': State)
    requires Inv(s)
    requires s' == s.(reader := s'.reader, dataSet := s'.dataSet, spaceSet := s'.spaceSet,
                      dispatched := s'.dispatched, stranded := s'.stranded)
    requires s'.dispatched + InFlight(s'.reader) == s.dispatched + InFlight(s.reader)
    requires ReaderOk(s')
    requires SpaceOk(s'.dataSet, s'.spaceSet, s'.reader, s'.writers)
    requires DataOk(s'.dataSet, s'.stranded, s'.reader, s'.ring, s'.owner, s'.writers)
    ensures Inv(s')
  {
  }

  lemma OpeningKeepsInv(s: State)
    requires Inv(s) && s.reader == Opening
    ensures Inv(ReaderStep(s))
  {
    if s.ring != [] {
      RingHeadPacket(s);
    } else {
      assert |Contents(s.cells, s.head, s.tail)| == 0;
    }
    ReaderMoves(s, ReaderStep(s));
  }

  lemma ReadOnFrame(s: State)
    requires s.reader.Reading?
    ensures var s' := ReadOn(s);
            && s'.dataSet == s.dataSet && s'.spaceSet == s.spaceSet && s'.owner == s.owner
            && s'.writers == s.writers && s'.committed == s.committed && s'.stranded == s.stranded
            && (s'.reader.Reading? || s'.reader.BrokenReader? || (s'.reader.SignallingSpace? && s'.reader.again))
  {
  }

  lemma ReadingKeepsInv(s: State)
    requires Inv(s) && s.reader.Reading?
    ensures Inv(ReadOn(s))
  {
    ReadOnFrame(s);
    ReadOnKeepsData(s);
  }

  lemma ReaderKeepsInv(s: State)
    requires Inv(s) && ReaderEnabled(s)
    ensures Inv(ReaderStep(s))
  {
    var s' := ReaderStep(s);
    match s.reader
    case Opening => OpeningKeepsInv(s);
    case Reading(_, _) => ReadingKeepsInv(s);
    case Dispatching(deliver) =>
      assert s'.dispatched + [] == s.dispatched + deliver;
      ReaderMoves(s, s');
    case _ => ReaderMoves(s, s');
  }

  // ---------------------------------------------------------------------------------------------
  // Steps of a writer
  // ---------------------------------------------------------------------------------------------

  lemma WritersFrame(cfg: Config, cells: seq<Cell>, tail: nat, load: nat, end: Assembly,
                     writers: map<nat, Writer>, w: nat, x': Writer)
    requires WritersOk(cfg, cells, tail, load, end, writers)
    requires x'.alive ==> WriterOk(cfg, cells, tail, load, end, w, x')
    ensures WritersOk(cfg, cells, tail, load, end, writers[w := x'])
  {
  }

  ghost predicate SameRing(s: State, s': State) {
    && s'.cfg == s.cfg && s'.cells == s.cells && s'.head == s.head && s'.tail == s.tail
    && s'.reader == s.reader && s'.assembly == s.assembly && s'.dispatched == s.dispatched
    && s'.ring == s.ring && s'.committed == s.committed
  }

  /** The bookkeeping of one writer's queue agrees with the shared ring. */
  ghost predicate BodyOk(s: State, w: nat, x: Writer) {
    && ProgressOk(FeedAll(s.assembly, s.ring), w, x.queue)
    && CopyOk(s.cfg, s.cells, s.tail, |Stream(s.ring, s.cfg.headerSize)|, w, x)
  }

  lemma SameRingFrame(s: State, s': State)
    requires RingOk(s) && ReaderOk(s) && DeliveryOk(s) && SameRing(s, s')
    ensures RingOk(s') && ReaderOk(s') && DeliveryOk(s')
  {
  }

  /** A step of one writer that does not touch the ring. */
  lemma WriterMoves(s: State, s': State, w: nat, x': Writer)
    requires Inv(s) && SameRing(s, s')
    requires s'.writers == s.writers[w := x']
    requires x'.alive ==> FlagsOk(x') && BodyOk(s, w, x')
    requires OwnerOk(s'.owner, s'.writers)
    requires SpaceOk(s'.dataSet, s'.spaceSet, s'.reader, s'.writers)
    requires DataOk(s'.dataSet, s'.stranded, s'.reader, s'.ring, s'.owner, s'.writers)
    ensures Inv(s')
  {
    var load, end := |Stream(s.ring, s.cfg.headerSize)|, FeedAll(s.assembly, s.ring);
    SameRingFrame(s, s');
    WritersFrame(s.cfg, s.cells, s.tail, load, end, s.writers, w, x');
  }

  lemma WriterFacts(s: State, w: nat)
    requires Inv(s) && Living(s, w)
    ensures FlagsOk(s.writers[w]) && BodyOk(s, w, s.writers[w])
    ensures Holds(s.writers[w]) <==> s.owner == Some(w)
  {
  }

  lemma OwnerFrame(owner: Option<nat>, writers: map<nat, Writer>, w: nat, x': Writer)
    requires OwnerOk(owner, writers) && w in writers && writers[w].alive
    requires x'.alive && Holds(x') == Holds(writers[w])
    ensures OwnerOk(owner, writers[w := x'])
  {
  }

  lemma SpaceFrame(dataSet: bool, spaceSet: bool, r: ReaderPc, writers: map<nat, Writer>, w: nat, x': Writer)
    requires SpaceOk(dataSet, spaceSet, r, writers) && w in writers
    requires Parked(x') ==> Parked(writers[w])
    ensures SpaceOk(dataSet, spaceSet, r, writers[w := x'])
  {
  }

  /** Only the owner of the mutex is parked or about to signal. */
  lemma OnlyTheOwner(s: State, w: nat)
    requires Inv(s) && Living(s, w)
    requires Parked(s.writers[w]) || s.writers[w].pc.Signalling?
    ensures s.owner == Some(w)
  {
    WriterFacts(s, w);
  }

  lemma WakingKeepsInv(s: State, w: nat)
    requires Inv(s) && WriterEnabled(s, w) && s.writers[w].pc.Idle? && s.writers[w].queue.waitingForSpace
    ensures Inv(At(s, w, ResettingSpace))
  {
    var x' := s.writers[w].(pc := ResettingSpace);
    WriterFacts(s, w);
    SpaceFrame(s.dataSet, s.spaceSet, s.reader, s.writers, w, x');
    OwnerFrame(s.owner, s.writers, w, x');
    WriterMoves(s, At(s, w, ResettingSpace), w, x');
  }

  lemma TakingKeepsInv(s: State, w: nat)
    requires Inv(s) && WriterEnabled(s, w) && s.writers[w].pc.Idle? && !s.writers[w].queue.waitingForSpace
    ensures Inv(At(s.(owner := Some(w)), w, AcquiredMutex))
  {
    var x' := s.writers[w].(pc := AcquiredMutex);
    WriterFacts(s, w);
    SpaceFrame(s.dataSet, s.spaceSet, s.reader, s.writers, w, x');
    WriterMoves(s, At(s.(owner := Some(w)), w, AcquiredMutex), w, x');
  }

  lemma AcquiredKeepsInv(s: State, w: nat)
    requires Inv(s) && WriterEnabled(s, w) && s.writers[w].pc.AcquiredMutex?
    ensures Inv(WriterStep(s, w))
  {
    var s' := WriterStep(s, w);
    var x' := s'.writers[w];
    WriterFacts(s, w);
    SpaceFrame(s.dataSet, s.spaceSet, s.reader, s.writers, w, x');
    OwnerFrame(s.owner, s.writers, w, x');
    WriterMoves(s, s', w, x');
  }

  /** Resetting the event takes it away from nobody: only the owner of the mutex waits for it. */
  lemma ResettingKeepsInv(s: State, w: nat)
    requires Inv(s) && WriterEnabled(s, w) && s.writers[w].pc.ResettingSpace?
    ensures Inv(WriterStep(s, w))
  {
    var s' := WriterStep(s, w);
    WriterFacts(s, w);
    forall v | v in s'.writers ensures !Parked(s'.writers[v]) {
      if v != w && Parked(s.writers[v]) { OnlyTheOwner(s, v); }
    }
    OwnerFrame(s.owner, s.writers, w, s'.writers[w]);
    WriterMoves(s, s', w, s'.writers[w]);
  }

  lemma StartPcOk(s: State, w: nat, x: Writer)
    requires RingOk(s) && x.pc.Starting? && FlagsOk(x) && BodyOk(s, w, x)
    ensures var x' := x.(pc := StartPc(s.cfg, |s.cells|, s.head, s.tail, w, x.queue, x.pc.count));
            FlagsOk(x') && BodyOk(s, w, x')
  {
    if x.queue.pending != [] {
      DecodeInvertsEncode(FrontPacket(s.cfg, w, x.queue), s.cfg.headerSize);
      assert |Contents(s.cells, s.head, s.tail)| == Used(s.head, s.tail, |s.cells|);
    }
  }

  lemma StartingKeepsInv(s: State, w: nat)
    requires Inv(s) && WriterEnabled(s, w) && s.writers[w].pc.Starting?
    ensures Inv(WriterStep(s, w))
  {
    var s' := WriterStep(s, w);
    var x' := s'.writers[w];
    WriterFacts(s, w);
    StartPcOk(s, w, s.writers[w]);
    SpaceFrame(s.dataSet, s.spaceSet, s.reader, s.writers, w, x');
    OwnerFrame(s.owner, s.writers, w, x');
    WriterMoves(s, s', w, x');
  }

  lemma ProceedOk(x: Writer)
    requires x.pc.Signalling? && FlagsOk(x)
    ensures FlagsOk(Proceed(x)) && Holds(Proceed(x))
    ensures Proceed(x).queue == x.queue.(waitingForSpace := Proceed(x).queue.waitingForSpace)
    ensures Parked(Proceed(x)) ==> x.pc.signal
    ensures !Proceed(x).pc.Copying?
  {
  }

  lemma SignallingKeepsInv(s: State, w: nat)
    requires Inv(s) && WriterEnabled(s, w) && s.writers[w].pc.Signalling?
    ensures Inv(WriterStep(s, w))
  {
    var s' := WriterStep(s, w);
    var x' := s'.writers[w];
    WriterFacts(s, w);
    ProceedOk(s.writers[w]);
    OnlyTheOwner(s, w);
    OwnerFrame(s.owner, s.writers, w, x');
    if !s.writers[w].pc.signal {
      SpaceFrame(s.dataSet, s.spaceSet, s.reader, s.writers, w, x');
    }
    WriterMoves(s, s', w, x');
  }

  lemma LetGoOk(x: Writer)
    requires x.pc.Releasing? && FlagsOk(x)
    ensures FlagsOk(LetGo(x)) && !Holds(LetGo(x)) && !Parked(LetGo(x)) && LetGo(x).pc.Idle?
    ensures LetGo(x).queue.pending == x.queue.pending && LetGo(x).queue.inProgress.None?
  {
  }

  lemma NobodyHolds(owner: Option<nat>, writers: map<nat, Writer>, w: nat, x': Writer)
    requires OwnerOk(owner, writers) && (owner == Some(w) || owner == None) && !Holds(x')
    ensures OwnerOk(None, writers[w := x'])
  {
  }

  lemma ReleasingKeepsInv(s: State, w: nat)
    requires Inv(s) && WriterEnabled(s, w) && s.writers[w].pc.Releasing?
    ensures Inv(WriterStep(s, w))
  {
    var s' := WriterStep(s, w);
    var x' := s'.writers[w];
    WriterFacts(s, w);
    LetGoOk(s.writers[w]);
    SpaceFrame(s.dataSet, s.spaceSet, s.reader, s.writers, w, x');
    NobodyHolds(s.owner, s.writers, w, x');
    WriterMoves(s, s', w, x');
  }

  /** Whoever does not hold the mutex has no packet under way and no message half written. */
  lemma BystanderOk(cfg: Config, cells: seq<Cell>, tail: nat, load: nat, end: Assembly, v: nat, x: Writer)
    requires FlagsOk(x) && !Holds(x)
    ensures WriterOk(cfg, cells, tail, load, end, v, x)
  {
  }

  /** The owner may change the shared ring: the others do not look at it. */
  lemma OwnersChange(s: State, cells: seq<Cell>, tail: nat, load: nat, end: Assembly, w: nat, x': Writer)
    requires Inv(s) && s.owner == Some(w)
    requires WriterOk(s.cfg, cells, tail, load, end, w, x')
    ensures WritersOk(s.cfg, cells, tail, load, end, s.writers[w := x'])
  {
    var writers' := s.writers[w := x'];
    forall v | v in writers' && writers'[v].alive ensures WriterOk(s.cfg, cells, tail, load, end, v, writers'[v]) {
      if v != w {
        WriterFacts(s, v);
        BystanderOk(s.cfg, cells, tail, load, end, v, s.writers[v]);
      }
    }
  }

  lemma CopyFacts(s: State, w: nat)
    requires Inv(s) && Living(s, w) && s.writers[w].pc.Copying?
    ensures s.owner == Some(w) && |s.cells| == s.cfg.capacity + 1 && s.head < |s.cells| && s.tail < |s.cells|
    ensures Used(s.head, s.tail, |s.cells|) == |Stream(s.ring, s.cfg.headerSize)|
    ensures var x := s.writers[w]; x.queue.pending != [] && x.queue.written <= |x.queue.pending[0].body|
  {
    WriterFacts(s, w);
    assert |Contents(s.cells, s.head, s.tail)| == Used(s.head, s.tail, |s.cells|);
  }

  lemma CopiedOneMore(cells: seq<Cell>, tail: nat, e: seq<Cell>, done: nat)
    requires tail < |cells| && done < |e| <= |cells| && Copied(cells, tail, e, done)
    ensures Copied(cells[Slot(tail, done, |cells|) := e[done]], tail, e, done + 1)
  {
    forall j | 0 <= j < done ensures Slot(tail, j, |cells|) != Slot(tail, done, |cells|) {}
  }

  lemma CopyCellKeepsInv(s: State, w: nat)
    requires Inv(s) && Living(s, w) && s.writers[w].pc.Copying?
    requires s.writers[w].pc.done < |Encode(s.writers[w].pc.packet, s.cfg.headerSize)|
    ensures Inv(CopyOn(s, w))
  {
    var x, s' := s.writers[w], CopyOn(s, w);
    var e, end := Encode(x.pc.packet, s.cfg.headerSize), FeedAll(s.assembly, s.ring);
    var load := |Stream(s.ring, s.cfg.headerSize)|;
    CopyFacts(s, w);
    WriterFacts(s, w);
    FreeStoreKeepsContents(s.cells, s.head, s.tail, x.pc.done, e[x.pc.done]);
    CopiedOneMore(s.cells, s.tail, e, x.pc.done);
    var x' := x.(pc := x.pc.(done := x.pc.done + 1));
    assert s' == With(s.(cells := s'.cells), w, x');
    assert WriterOk(s.cfg, s'.cells, s.tail, load, end, w, x');
    OwnersChange(s, s'.cells, s.tail, load, end, w, x');
    CellStoreControl(s, s', w, x');
  }

  lemma CellStoreControl(s: State, s': State, w: nat, x': Writer)
    requires Inv(s) && Living(s, w) && s.writers[w].pc.Copying? && s.owner == Some(w)
    requires s' == With(s.(cells := s'.cells), w, x')
    requires x' == s.writers[w].(pc := x'.pc) && x'.pc.Copying?
    ensures ControlInv(s')
  {
    OwnerFrame(s.owner, s.writers, w, x');
    SpaceFrame(s.dataSet, s.spaceSet, s.reader, s.writers, w, x');
  }

  // ---------------------------------------------------------------------------------------------
  // Publishing a packet
  // ---------------------------------------------------------------------------------------------

  lemma PublishKeepsRing(s: State, p: Packet)
    requires RingOk(s)
    requires var e := Encode(p, s.cfg.headerSize);
             && |Stream(s.ring, s.cfg.headerSize)| + |e| <= s.cfg.capacity
             && Copied(s.cells, s.tail, e, |e|)
    ensures var e := Encode(p, s.cfg.headerSize);
            && Slot(s.tail, |e|, |s.cells|) < |s.cells|
            && Contents(s.cells, s.head, Slot(s.tail, |e|, |s.cells|)) == Stream(s.ring + [p], s.cfg.headerSize)
  {
    var e := Encode(p, s.cfg.headerSize);
    assert |Contents(s.cells, s.head, s.tail)| == Used(s.head, s.tail, |s.cells|);
    AdvanceTail(s.cells, s.head, s.tail, e);
    StreamAppend(s.ring, p, s.cfg.headerSize);
  }

  lemma MessagesConcat(cs: seq<Sent>, ds: seq<Sent>)
    ensures Messages(cs + ds) == Messages(cs) + Messages(ds)
  {
  }

  /** What the front packet means to a reader that has taken everything published so far. */
  lemma FrontPacketAdvances(cfg: Config, end: Assembly, w: nat, q: Queue)
    requires q.pending != [] && q.pending[0].body != [] && ProgressOk(end, w, q)
    requires q.inProgress.Some? ==> q.inProgress.value == q.pending[0] && 0 < q.written < |q.pending[0].body|
    requires q.inProgress.None? ==> q.written == 0 && q.sequence == 0
    ensures var p, m := FrontPacket(cfg, w, q), q.pending[0];
            && WellSized(p) && Follows(end, p.header) && p.body != []
            && q.written + |p.body| <= |m.body|
            && (p.header.last ==> Completes(end, p) == [Message(w, m.kind, m.body)])
            && (!p.header.last ==> Completes(end, p) == [] && q.written + |p.body| < |m.body|)
            && (!p.header.last ==>
                  MidMessage(Feed(end, p), w, m.kind, m.body, q.written + |p.body|, p.header.sequence + 1))
  {
    var m := q.pending[0];
    if q.inProgress.Some? {
      NextPacketAdvances(cfg, end, w, m.kind, m.body, q.written, q.sequence + 1);
    } else {
      NextPacketAdvances(cfg, end, w, m.kind, m.body, 0, 0);
    }
  }

  lemma PublishKeepsDelivery(s: State, p: Packet, sent: seq<Sent>)
    requires DeliveryOk(s) && WellSized(p) && Follows(FeedAll(s.assembly, s.ring), p.header)
    requires Messages(sent) == Completes(FeedAll(s.assembly, s.ring), p)
    ensures InSequence(s.assembly, s.ring + [p])
    ensures Messages(s.committed + sent) == s.dispatched + InFlight(s.reader) + CompletesAll(s.assembly, s.ring + [p])
    ensures FeedAll(s.assembly, s.ring + [p]) == Feed(FeedAll(s.assembly, s.ring), p)
  {
    FeedOneMore(s.assembly, s.ring, p);
    MessagesConcat(s.committed, sent);
    Regroup(s.dispatched + InFlight(s.reader), CompletesAll(s.assembly, s.ring), Messages(sent));
  }

  /** The queue after its packet is out. */
  lemma AfterPublishingOk(cfg: Config, end: Assembly, w: nat, x: Writer)
    requires x.pc.Copying? && FlagsOk(x) && ProgressOk(end, w, x.queue)
    requires x.pc.packet == FrontPacket(cfg, w, x.queue) && (x.pc.count != 0 ==> x.pc.packet.header.last)
    ensures var x', p := AfterPublishing(x, true), x.pc.packet;
            FlagsOk(x') && ProgressOk(Feed(end, p), w, x'.queue)
  {
    FrontPacketAdvances(cfg, end, w, x.queue);
  }

  /** The stale view of the head still shows data once the packet is in. */
  lemma PublishSignals(head: nat, tail: nat, size: nat, k: nat)
    requires head < size && tail < size && 0 < k && Used(head, tail, size) + k < size
    ensures Used(head, Slot(tail, k, size), size) != 0
  {
  }

  lemma PublishSetsEvent(s: State, w: nat)
    requires Inv(s) && Living(s, w) && s.writers[w].pc.Copying?
    ensures var x := s.writers[w];
            && x.queue.pending != [] && x.pc.tail == s.tail < |s.cells|
            && |Encode(x.pc.packet, s.cfg.headerSize)| <= |s.cells|
            && Publish(s, w).writers[w] == AfterPublishing(x, true)
  {
    var x := s.writers[w];
    CopyFacts(s, w);
    WriterFacts(s, w);
    DecodeInvertsEncode(x.pc.packet, s.cfg.headerSize);
    PublishSignals(x.pc.head, s.tail, |s.cells|, |Encode(x.pc.packet, s.cfg.headerSize)|);
  }

  lemma PublishKeepsData(s: State, w: nat)
    requires Inv(s) && Living(s, w) && s.writers[w].pc.Copying?
    requires s.writers[w].pc.done == |Encode(s.writers[w].pc.packet, s.cfg.headerSize)| <= |s.cells|
    requires s.writers[w].queue.pending != [] && s.writers[w].pc.tail < |s.cells|
    ensures DataInv(Publish(s, w))
  {
    var x, s', end := s.writers[w], Publish(s, w), FeedAll(s.assembly, s.ring);
    var p, h := x.pc.packet, s.cfg.headerSize;
    CopyFacts(s, w);
    WriterFacts(s, w);
    FrontPacketAdvances(s.cfg, end, w, x.queue);
    assert RingOk(s') by { PublishKeepsRing(s, p); }
    assert Messages(Finishes(w, x)) == Completes(end, p);
    PublishKeepsDelivery(s, p, Finishes(w, x));
    assert DeliveryOk(s');
    PublishSetsEvent(s, w);
    AfterPublishingOk(s.cfg, end, w, x);
    OwnersChange(s, s'.cells, s'.tail, |Stream(s'.ring, h)|, FeedAll(s'.assembly, s'.ring), w, s'.writers[w]);
  }

  lemma PublishKeepsInv(s: State, w: nat)
    requires Inv(s) && Living(s, w) && s.writers[w].pc.Copying?
    requires s.writers[w].pc.done == |Encode(s.writers[w].pc.packet, s.cfg.headerSize)| <= |s.cells|
    requires s.writers[w].queue.pending != [] && s.writers[w].pc.tail < |s.cells|
    ensures Inv(Publish(s, w))
  {
    var x' := AfterPublishing(s.writers[w], true);
    PublishKeepsData(s, w);
    PublishSetsEvent(s, w);
    CopyFacts(s, w);
    WriterFacts(s, w);
    OwnerFrame(s.owner, s.writers, w, x');
    SpaceFrame(s.dataSet, s.spaceSet, s.reader, s.writers, w, x');
  }

  lemma CopyingKeepsInv(s: State, w: nat)
    requires Inv(s) && WriterEnabled(s, w) && s.writers[w].pc.Copying?
    ensures Inv(WriterStep(s, w))
  {
    PublishSetsEvent(s, w);
    if s.writers[w].pc.done < |Encode(s.writers[w].pc.packet, s.cfg.headerSize)| {
      CopyCellKeepsInv(s, w);
    } else {
      WriterFacts(s, w);
      CopyFacts(s, w);
      PublishKeepsInv(s, w);
    }
  }

  lemma WriterKeepsInv(s: State, w: nat)
    requires Inv(s) && WriterEnabled(s, w)
    ensures Inv(WriterStep(s, w))
  {
    match s.writers[w].pc
    case Idle => if s.writers[w].queue.waitingForSpace { WakingKeepsInv(s, w); } else { TakingKeepsInv(s, w); }
    case AcquiredMutex => AcquiredKeepsInv(s, w);
    case ResettingSpace => ResettingKeepsInv(s, w);
    case Starting(_) => StartingKeepsInv(s, w);
    case Copying(_, _, _, _, _) => CopyingKeepsInv(s, w);
    case Signalling(_, _, _) => SignallingKeepsInv(s, w);
    case Releasing => ReleasingKeepsInv(s, w);
  }

  // ---------------------------------------------------------------------------------------------
  // The rest of the world
  // ---------------------------------------------------------------------------------------------

  lemma SendKeepsInv(s: State, w: nat, kind: int, body: seq<byte>)
    requires Inv(s) && Living(s, w) && Unlocked(s.writers[w].pc) && body != []
    ensures Inv(Send(s, w, kind, body))
  {
    var x, s' := s.writers[w], Send(s, w, kind, body);
    var x' := s'.writers[w];
    WriterFacts(s, w);
    SendFlags(x, Entry(|x.ledger.accepted|, kind, body), x');
    OwnerFrame(s.owner, s.writers, w, x');
    SpaceFrame(s.dataSet, s.spaceSet, s.reader, s.writers, w, x');
    WriterMoves(s, s', w, x');
  }

  lemma SendFlags(x: Writer, e: Entry, x': Writer)
    requires FlagsOk(x) && Unlocked(x.pc) && e.body != []
    requires x'.pc == x.pc && x'.alive == x.alive
    requires x'.queue == x.queue.(pending := x.queue.pending + [e],
                                  waitingForMutex := x.queue.waitingForMutex || !x.queue.hasWriteMutex)
    ensures FlagsOk(x') && Holds(x') == Holds(x) && Parked(x') == Parked(x)
  {
  }

  lemma LedgerMoves(s: State, w: nat, l: Ledger)
    requires Inv(s) && Living(s, w) && Unlocked(s.writers[w].pc)
    ensures Inv(With(s, w, s.writers[w].(ledger := l)))
  {
    var x' := s.writers[w].(ledger := l);
    WriterFacts(s, w);
    OwnerFrame(s.owner, s.writers, w, x');
    SpaceFrame(s.dataSet, s.spaceSet, s.reader, s.writers, w, x');
    WriterMoves(s, With(s, w, x'), w, x');
  }

  lemma RefuseKeepsInv(s: State, w: nat, kind: int, body: seq<byte>)
    requires Inv(s) && Living(s, w)
    requires Unlocked(s.writers[w].pc)
    ensures Inv(Refuse(s, w, kind, body))
  {
    var l := s.writers[w].ledger;
    var e := Entry(|l.accepted|, kind, body);
    LedgerMoves(s, w, l.(accepted := l.accepted + [e], failed := l.failed + [e]));
  }

  lemma ReportKeepsInv(s: State, w: nat)
    requires Inv(s) && Living(s, w) && s.writers[w].pc.Idle?
    ensures Inv(Report(s, w))
  {
    WriterFacts(s, w);
    LedgerMoves(s, w, Tell(s.writers[w].ledger));
  }

  /** A writer that leaves takes no signal with it, unless it dies owing one for a packet that is unread. */
  lemma LeaverOwes(dataSet: bool, stranded: bool, r: ReaderPc, ring: seq<Packet>, owner: Option<nat>,
                   writers: map<nat, Writer>, w: nat, x': Writer, stranded': bool)
    requires DataOk(dataSet, stranded, r, ring, owner, writers) && w in writers
    requires stranded ==> stranded'
    requires owner == Some(w) && writers[w].pc.Signalling? && writers[w].pc.published && ring != [] ==> stranded'
    ensures DataOk(dataSet, stranded', r, ring, if owner == Some(w) then None else owner, writers[w := x'])
  {
  }

  lemma FreshWriterOk(s: State, w: nat, x': Writer)
    requires x'.queue == FRESH_QUEUE && x'.pc.Idle?
    ensures FlagsOk(x') && BodyOk(s, w, x') && !Holds(x') && !Parked(x')
  {
  }

  lemma DropKeepsInv(s: State, w: nat)
    requires Inv(s) && Living(s, w) && s.writers[w].pc.Idle?
    ensures Inv(Drop(s, w))
  {
    var x, s' := s.writers[w], Drop(s, w);
    var x' := s'.writers[w];
    WriterFacts(s, w);
    FreshWriterOk(s, w, x');
    if x.queue.hasWriteMutex {
      NobodyHolds(s.owner, s.writers, w, x');
    } else {
      OwnerFrame(s.owner, s.writers, w, x');
    }
    SpaceFrame(s.dataSet, s.spaceSet, s.reader, s.writers, w, x');
    LeaverOwes(s.dataSet, s.stranded, s.reader, s.ring, s.owner, s.writers, w, x', s.stranded);
    WriterMoves(s, s', w, x');
  }

  lemma DieKeepsInv(s: State, w: nat)
    requires Inv(s) && Living(s, w)
    ensures Inv(Die(s, w))
  {
    var s' := Die(s, w);
    var x' := s'.writers[w];
    WriterFacts(s, w);
    DeadOwner(s.owner, s.writers, w, x');
    SpaceFrame(s.dataSet, s.spaceSet, s.reader, s.writers, w, x');
    LeaverOwes(s.dataSet, s.stranded, s.reader, s.ring, s.owner, s.writers, w, x', s'.stranded);
    WriterMoves(s, s', w, x');
  }

  lemma DeadOwner(owner: Option<nat>, writers: map<nat, Writer>, w: nat, x': Writer)
    requires OwnerOk(owner, writers) && !x'.alive
    ensures OwnerOk(if owner == Some(w) then None else owner, writers[w := x'])
  {
  }

  lemma StepKeepsInv(s: State, a: Action)
    requires Inv(s) && Enabled(s, a)
    ensures Inv(Apply(s, a))
  {
    match a
    case StepReader => ReaderKeepsInv(s);
    case KillReader => ReaderMoves(s, Apply(s, a));
    case StepWriter(w) => WriterKeepsInv(s, w);
    case DoSend(w, kind, body) => SendKeepsInv(s, w, kind, body);
    case DoRefuse(w, kind, body) => RefuseKeepsInv(s, w, kind, body);
    case DoReport(w) => ReportKeepsInv(s, w);
    case DoDrop(w) => DropKeepsInv(s, w);
    case KillWriter(w) => DieKeepsInv(s, w);
  }

  lemma {:induction false} RunKeepsInv(s: State, actions: seq<Action>)
    requires Inv(s) && IsRun(s, actions)
    ensures Inv(Exec(s, actions))
    decreases actions
  {
    if actions != [] {
      StepKeepsInv(s, actions[0]);
      RunKeepsInv(Apply(s, actions[0]), actions[1..]);
    }
  }

  // ---------------------------------------------------------------------------------------------
  // What is left to send
  // ---------------------------------------------------------------------------------------------

  function Bytes(entries: seq<Entry>): nat {
    if entries == [] then 0 else |entries[0].body| + Bytes(entries[1..])
  }

  /** The bytes a queue still has to send. */
  function Left(q: Queue): int {
    Bytes(q.pending) - q.written
  }

  lemma LeftIsNatural(pc: WriterPc, q: Queue)
    requires QueueOk(pc, q)
    ensures 0 <= Left(q)
  {
  }

  /** A published packet leaves less to send. */
  lemma PublishingSends(cfg: Config, end: Assembly, w: nat, x: Writer, signal: bool)
    requires x.pc.Copying? && FlagsOk(x) && ProgressOk(end, w, x.queue)
    requires x.pc.packet == FrontPacket(cfg, w, x.queue)
    ensures 0 <= Left(AfterPublishing(x, signal).queue) < Left(x.queue)
  {
    FrontPacketAdvances(cfg, end, w, x.queue);
  }
}
