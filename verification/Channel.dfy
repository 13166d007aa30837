/**
  One inbound queue and everybody who writes to it, as a state machine.

  A step is one access to something the processes share: a load of the positions, one copied cell,
  a store of a position, an event operation, a mutex operation.  Purely local work (forming a
  header, bookkeeping of the pending list) is done in the same step as the shared access next to
  it.  A transaction's two position loads form one step, because one of the two positions is
  written only by the side that loads it.  A failing source assert leads to a `Broken` state.

  Writers are identified by their process.  A process may die at any point, and the worker thread
  may drop a whole outbound queue between two waits (a timeout, or a closed process handle).
 */
module Channel {
  import opened Ring
  import opened Basics
  import opened Wire

  // ---------------------------------------------------------------------------------------------
  // State
  // ---------------------------------------------------------------------------------------------

  /** One (message, destination) pair accepted for sending; `id` counts the sender's acceptances. */
  datatype Entry = Entry(id: nat, kind: int, body: seq<byte>)

  /** The fields of an OutboundQueue. */
  datatype Queue = Queue(pending: seq<Entry>,
                         hasWriteMutex: bool,
                         waitingForMutex: bool,
                         waitingForSpace: bool,
                         inProgress: Option<Entry>,
                         written: nat,
                         sequence: nat)

  const FRESH_QUEUE := Queue([], false, false, false, None, 0, 0)

  /** What WritePendingMessages does once a packet's transaction has ended. */
  datatype AfterPacket = Again(count: nat) | Park | Finish

  datatype WriterPc =
    | Idle                                      // between waits
    | AcquiredMutex                             // the wait on the mutex returned
    | ResettingSpace                            // the wait on the space event returned
    | Starting(count: nat)                      // loop head; count messages written so far
    | Copying(count: nat, head: nat, tail: nat, packet: Packet, done: nat)
    // the transaction's last act; `published` is whether it put a packet into the ring
    | Signalling(signal: bool, next: AfterPacket, published: bool)
    | Releasing
    | BrokenWriter

  /** The owner's lists: what has been accepted, what has come of it, and what the listener was told. */
  datatype Ledger = Ledger(accepted: seq<Entry>,
                           successful: seq<Entry>,
                           failed: seq<Entry>,
                           toldSuccessful: seq<Entry>,
                           toldFailed: seq<Entry>)

  datatype Writer = Writer(alive: bool, pc: WriterPc, queue: Queue, ledger: Ledger)

  const FRESH_WRITER := Writer(true, Idle, FRESH_QUEUE, Ledger([], [], [], [], []))

  datatype ReaderPc =
    | Waiting
    | ResettingData
    | Opening
    | Reading(tail: nat, got: seq<Cell>)
    // the transaction's last act; `room` is whether the reader sees space
    | SignallingSpace(deliver: seq<Message>, again: bool, room: bool)
    | Dispatching(deliver: seq<Message>)
    | BrokenReader
    | DeadReader(undelivered: seq<Message>)

  /** A message whose last packet has been published, with its sender. */
  datatype Sent = Sent(source: nat, entry: Entry)

  /**
    `ring`, `committed` and `stranded` are history: the packets published and not yet consumed,
    the messages fully published so far in the order of publication, and whether somebody died
    between publishing a packet and signalling it, before it was read, with nobody signalling or
    looking since.
   */
  datatype State = State(cfg: Config,
                         cells: seq<Cell>,
                         head: nat,
                         tail: nat,
                         owner: Option<nat>,
                         dataSet: bool,
                         spaceSet: bool,
                         reader: ReaderPc,
                         assembly: Assembly,
                         dispatched: seq<Message>,
                         writers: map<nat, Writer>,
                         ring: seq<Packet>,
                         committed: seq<Sent>,
                         stranded: bool)

  /** InboundQueue::Create, with any memory contents and any set of processes that may write. */
  predicate Initial(s: State) {
    && |s.cells| == s.cfg.capacity + 1
    && s.head == 0 && s.tail == 0
    && s.owner == None && !s.dataSet && !s.spaceSet
    && s.reader == Waiting && s.assembly == EMPTY_ASSEMBLY && s.dispatched == []
    && (forall w | w in s.writers :: s.writers[w] == FRESH_WRITER)
    && s.ring == [] && s.committed == [] && !s.stranded
  }

  // ---------------------------------------------------------------------------------------------
  // The reader
  // ---------------------------------------------------------------------------------------------

  predicate Positioned(s: State) {
    s.head < |s.cells| && s.tail < |s.cells|
  }

  /** The message handler runs until it has returned; then the reader looks at the ring again. */
  function AfterDelivery(again: bool): ReaderPc {
    if again then Opening else Waiting
  }

  predicate HasRoom(head: nat, tail: nat, size: nat)
    requires head < size && tail < size
  {
    Used(head, tail, size) + 1 < size
  }

  /** The whole packet has been copied: adopt it and publish the new head. */
  function Consume(s: State, header: Header, got: seq<Cell>): State
    requires Positioned(s) && s.cfg.headerSize <= |got| <= |s.cells|
    requires s.reader.Reading? && s.reader.tail < |s.cells|
  {
    var p, head := Packet(header, DecodeBody(got[s.cfg.headerSize..])), Slot(s.head, |got|, |s.cells|);
    s.(head := head,
       reader := SignallingSpace(Completes(s.assembly, p), true, HasRoom(head, s.reader.tail, |s.cells|)),
       assembly := Feed(s.assembly, p),
       ring := if s.ring == [] then [] else s.ring[1..])
  }

  /** Copy the next cell of the packet, or finish it; the checks are the source's. */
  function ReadOn(s: State): State
    requires s.reader.Reading?
  {
    var h, got, broken := s.cfg.headerSize, s.reader.got, s.(reader := BrokenReader);
    if !Positioned(s) || s.reader.tail >= |s.cells| || |got| >= |s.cells| then broken
    else if |got| < h then
      s.(reader := s.reader.(got := got + [s.cells[Slot(s.head, |got|, |s.cells|)]]))
    else match DecodeHeader(got[..h])
      case None => broken
      case Some(header) =>
        if !Follows(s.assembly, header) then broken
        else if Used(s.head, s.reader.tail, |s.cells|) < h + header.size then broken
        else if |got| < h + header.size then
          s.(reader := s.reader.(got := got + [s.cells[Slot(s.head, |got|, |s.cells|)]]))
        else Consume(s, header, got)
  }

  predicate ReaderEnabled(s: State) {
    match s.reader
    case Waiting => s.dataSet
    case BrokenReader => false
    case DeadReader(_) => false
    case _ => true
  }

  function ReaderStep(s: State): State
    requires ReaderEnabled(s)
  {
    match s.reader
    case Waiting => s.(reader := ResettingData)
    case ResettingData => s.(dataSet := false, reader := Opening)
    case Opening =>
      if !Positioned(s) then s.(reader := BrokenReader)
      else
        var available := Used(s.head, s.tail, |s.cells|);
        var room := HasRoom(s.head, s.tail, |s.cells|);
        if available == 0 then s.(reader := SignallingSpace([], false, room), stranded := false)
        else if available < s.cfg.headerSize then s.(reader := BrokenReader)
        else s.(reader := Reading(s.tail, []), stranded := false)
    case Reading(_, _) => ReadOn(s)
    case SignallingSpace(deliver, again, room) =>
      s.(spaceSet := s.spaceSet || room, reader := if deliver == [] then AfterDelivery(again) else Dispatching(deliver))
    case Dispatching(deliver) => s.(dispatched := s.dispatched + deliver, reader := Opening)
  }

  function InFlight(r: ReaderPc): seq<Message> {
    match r
    case SignallingSpace(deliver, _, _) => deliver
    case Dispatching(deliver) => deliver
    case DeadReader(undelivered) => undelivered
    case _ => []
  }

  // ---------------------------------------------------------------------------------------------
  // A writer
  // ---------------------------------------------------------------------------------------------

  /** The front message's next packet, taking what earlier packets carried into account. */
  function FrontPacket(cfg: Config, w: nat, q: Queue): Packet
    requires q.pending != [] && q.written <= |q.pending[0].body|
  {
    var m := q.pending[0];
    if q.inProgress.Some?
    then NextPacket(cfg, w, m.kind, m.body, q.written, q.sequence + 1)
    else NextPacket(cfg, w, m.kind, m.body, 0, 0)
  }

  function With(s: State, w: nat, x: Writer): State {
    s.(writers := s.writers[w := x])
  }

  function At(s: State, w: nat, pc: WriterPc): State
    requires w in s.writers
  {
    With(s, w, s.writers[w].(pc := pc))
  }

  /** After the loop: hold on to the mutex until at least one message is out. */
  function AfterLoop(count: nat, q: Queue): AfterPacket {
    if count == 0 && q.pending != [] then Park else Finish
  }

  /** Loop head and WriteOnePacket's decision, on the writer's own view of the ring. */
  function StartPc(cfg: Config, size: nat, head: nat, tail: nat, w: nat, q: Queue, count: nat): WriterPc {
    if !q.hasWriteMutex then BrokenWriter
    else if q.pending == [] then Signalling(false, AfterLoop(count, q), false)
    else if q.inProgress.Some? && (count != 0 || q.inProgress != Some(q.pending[0])) then BrokenWriter
    else if head >= size || tail >= size || q.written > |q.pending[0].body| then BrokenWriter
    else
      var p := FrontPacket(cfg, w, q);
      var used := Used(head, tail, size);
      if (!p.header.last && count != 0) || cfg.headerSize + |p.body| + used > cfg.capacity
      then Signalling(used != 0, AfterLoop(count, q), false)
      else Copying(count, head, tail, p, 0)
  }

  /** The bookkeeping after a packet: the front message is out, or is now in progress. */
  function AfterPublishing(x: Writer, signal: bool): Writer
    requires x.pc.Copying? && x.queue.pending != []
  {
    var p, q, count := x.pc.packet, x.queue, x.pc.count;
    if p.header.last then
      var q' := q.(pending := q.pending[1..], inProgress := None, written := 0, sequence := 0);
      var next := if q'.pending == [] then AfterLoop(count + 1, q') else Again(count + 1);
      x.(pc := Signalling(signal, next, true), queue := q',
         ledger := x.ledger.(successful := x.ledger.successful + [q.pending[0]]))
    else
      var q' := q.(inProgress := Some(q.pending[0]), written := q.written + |p.body|,
                   sequence := p.header.sequence);
      x.(pc := Signalling(signal, AfterLoop(count, q'), true), queue := q')
  }

  function Finishes(w: nat, x: Writer): seq<Sent>
    requires x.pc.Copying? && x.queue.pending != []
  {
    if x.pc.packet.header.last then [Sent(w, x.queue.pending[0])] else []
  }

  /** All cells are in place: publish the tail. */
  function Publish(s: State, w: nat): State
    requires w in s.writers && s.writers[w].pc.Copying? && s.writers[w].queue.pending != []
    requires s.writers[w].pc.tail < |s.cells| && |Encode(s.writers[w].pc.packet, s.cfg.headerSize)| <= |s.cells|
  {
    var x := s.writers[w];
    var tail' := Slot(x.pc.tail, |Encode(x.pc.packet, s.cfg.headerSize)|, |s.cells|);
    var signal := x.pc.head >= |s.cells| || Used(x.pc.head, tail', |s.cells|) != 0;
    With(s.(tail := tail', ring := s.ring + [x.pc.packet], committed := s.committed + Finishes(w, x)),
         w, AfterPublishing(x, signal))
  }

  function CopyOn(s: State, w: nat): State
    requires w in s.writers && s.writers[w].pc.Copying?
  {
    var pc := s.writers[w].pc;
    var e := Encode(pc.packet, s.cfg.headerSize);
    if pc.tail >= |s.cells| || |e| > |s.cells| || s.writers[w].queue.pending == [] then At(s, w, BrokenWriter)
    else if pc.done < |e| then
      At(s.(cells := s.cells[Slot(pc.tail, pc.done, |s.cells|) := e[pc.done]]), w, pc.(done := pc.done + 1))
    else Publish(s, w)
  }

  /** The transaction has ended: go on with the loop, or leave it. */
  function Proceed(x: Writer): Writer
    requires x.pc.Signalling?
  {
    match x.pc.next
    case Again(count) => x.(pc := Starting(count))
    case Finish => x.(pc := Releasing)
    case Park =>
      if !x.queue.hasWriteMutex || x.queue.waitingForSpace then x.(pc := BrokenWriter)
      else x.(pc := Idle, queue := x.queue.(waitingForSpace := true))
  }

  function LetGo(x: Writer): Writer {
    if x.queue.inProgress.Some? then x.(pc := BrokenWriter)
    else x.(pc := Idle,
            queue := x.queue.(hasWriteMutex := false,
                              waitingForMutex := x.queue.waitingForMutex || x.queue.pending != []))
  }

  predicate WriterEnabled(s: State, w: nat) {
    && w in s.writers && s.writers[w].alive
    && var x := s.writers[w];
       match x.pc
       case Idle =>
         && x.queue.pending != []
         && if x.queue.waitingForSpace then s.spaceSet else x.queue.waitingForMutex && s.owner == None
       case BrokenWriter => false
       case _ => true
  }

  function WriterStep(s: State, w: nat): State
    requires WriterEnabled(s, w)
  {
    var x := s.writers[w];
    match x.pc
    case Idle =>
      if x.queue.waitingForSpace then At(s, w, ResettingSpace)
      else At(s.(owner := Some(w)), w, AcquiredMutex)
    case AcquiredMutex =>
      With(s, w, x.(pc := Starting(0), queue := x.queue.(waitingForMutex := false, hasWriteMutex := true)))
    case ResettingSpace =>
      if !x.queue.hasWriteMutex then At(s, w, BrokenWriter)
      else With(s.(spaceSet := false), w, x.(pc := Starting(0), queue := x.queue.(waitingForSpace := false)))
    case Starting(count) => At(s, w, StartPc(s.cfg, |s.cells|, s.head, s.tail, w, x.queue, count))
    case Copying(_, _, _, _, _) => CopyOn(s, w)
    case Signalling(signal, _, _) =>
      With(s.(dataSet := s.dataSet || signal, stranded := s.stranded && !signal), w, Proceed(x))
    case Releasing => With(s.(owner := if s.owner == Some(w) then None else s.owner), w, LetGo(x))
  }

  // ---------------------------------------------------------------------------------------------
  // The rest of the world
  // ---------------------------------------------------------------------------------------------

  /** The worker thread holds the queue lock everywhere else. */
  predicate Unlocked(pc: WriterPc) {
    pc.Idle? || pc.AcquiredMutex? || pc.ResettingSpace?
  }

  /** SendWithCompletion or SendToAll with an open outbound queue. */
  function Send(s: State, w: nat, kind: int, body: seq<byte>): State
    requires w in s.writers
  {
    var x := s.writers[w];
    var e := Entry(|x.ledger.accepted|, kind, body);
    var q := x.queue;
    With(s, w, x.(ledger := x.ledger.(accepted := x.ledger.accepted + [e]),
                  queue := q.(pending := q.pending + [e],
                              waitingForMutex := q.waitingForMutex || !q.hasWriteMutex)))
  }

  /** SendWithCompletion when the outbound queue cannot be opened. */
  function Refuse(s: State, w: nat, kind: int, body: seq<byte>): State
    requires w in s.writers
  {
    var x := s.writers[w];
    var e := Entry(|x.ledger.accepted|, kind, body);
    With(s, w, x.(ledger := x.ledger.(accepted := x.ledger.accepted + [e], failed := x.ledger.failed + [e])))
  }

  function Tell(l: Ledger): Ledger {
    l.(toldSuccessful := l.toldSuccessful + l.successful, successful := [],
       toldFailed := l.toldFailed + l.failed, failed := [])
  }

  /** The worker thread's loop head: check the wait flags, then tell the listener what happened. */
  function Report(s: State, w: nat): State
    requires w in s.writers
  {
    var x := s.writers[w];
    if x.queue.pending != [] && x.queue.waitingForSpace == x.queue.waitingForMutex
    then At(s, w, BrokenWriter)
    else With(s, w, x.(ledger := Tell(x.ledger)))
  }

  /** RemoveOutboundQueue: everything pending has failed, and the queue's destructor lets go of the mutex. */
  function Drop(s: State, w: nat): State
    requires w in s.writers
  {
    var x := s.writers[w];
    With(if x.queue.hasWriteMutex then s.(owner := None) else s,
         w, x.(queue := FRESH_QUEUE, ledger := x.ledger.(failed := x.ledger.failed + x.queue.pending)))
  }

  /** The process dies: an owned mutex is abandoned, and the next waiter gets it. */
  function Die(s: State, w: nat): State
    requires w in s.writers
  {
    var x := s.writers[w];
    With(s.(owner := if s.owner == Some(w) then None else s.owner,
            stranded := s.stranded || (x.pc.Signalling? && x.pc.published && s.ring != [])),
         w, x.(alive := false))
  }

  datatype Action =
    | StepReader
    | KillReader
    | StepWriter(w: nat)
    | DoSend(w: nat, kind: int, body: seq<byte>)
    | DoRefuse(w: nat, kind: int, body: seq<byte>)
    | DoReport(w: nat)
    | DoDrop(w: nat)
    | KillWriter(w: nat)

  predicate Living(s: State, w: nat) {
    w in s.writers && s.writers[w].alive
  }

  predicate Enabled(s: State, a: Action) {
    match a
    case StepReader => ReaderEnabled(s)
    case KillReader => !s.reader.DeadReader?
    case StepWriter(w) => WriterEnabled(s, w)
    case DoSend(w, _, body) => Living(s, w) && Unlocked(s.writers[w].pc) && body != []
    case DoRefuse(w, _, _) => Living(s, w) && Unlocked(s.writers[w].pc)
    case DoReport(w) => Living(s, w) && s.writers[w].pc.Idle?
    case DoDrop(w) => Living(s, w) && s.writers[w].pc.Idle?
    case KillWriter(w) => Living(s, w)
  }

  function Apply(s: State, a: Action): State
    requires Enabled(s, a)
  {
    match a
    case StepReader => ReaderStep(s)
    case KillReader => s.(reader := DeadReader(InFlight(s.reader)))
    case StepWriter(w) => WriterStep(s, w)
    case DoSend(w, kind, body) => Send(s, w, kind, body)
    case DoRefuse(w, kind, body) => Refuse(s, w, kind, body)
    case DoReport(w) => Report(s, w)
    case DoDrop(w) => Drop(s, w)
    case KillWriter(w) => Die(s, w)
  }

  // ---------------------------------------------------------------------------------------------
  // Runs
  // ---------------------------------------------------------------------------------------------

  predicate IsRun(s: State, actions: seq<Action>)
    decreases actions
  {
    actions == [] || (Enabled(s, actions[0]) && IsRun(Apply(s, actions[0]), actions[1..]))
  }

  function Exec(s: State, actions: seq<Action>): State
    requires IsRun(s, actions)
    decreases actions
  {
    if actions == [] then s else Exec(Apply(s, actions[0]), actions[1..])
  }
}
