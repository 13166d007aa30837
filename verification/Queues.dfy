/**
  The inbound and the outbound queue in the source's own form: objects whose methods work on the
  shared buffer through a circular buffer of their own.  Each method runs here without being
  interrupted.  The writer's decision and bookkeeping, the end of its round and the reader's
  treatment of a packet are proved to be what the step-by-step model of the channel does:
  `TurnMatchesSteps`, `EndMatchesSteps` and `ReadMatchesSteps`.
 */
module Queues {
  import opened Ring
  import opened Basics
  import opened Wire
  import opened Channel
  import opened ChannelInvariant
  import opened CircularBuffers

  /** The memory and the two events that the processes share. */
  class IpcBuffer {
    const cfg: Config
    const data: array<Cell>
    var head: nat
    var tail: nat
    var dataAvailable: bool
    var spaceAvailable: bool

    ghost predicate Valid()
      reads this
    {
      data.Length == cfg.capacity + 1 && head < data.Length && tail < data.Length
    }

    ghost function Visible(): seq<Cell>
      reads this, data
      requires Valid()
    {
      Contents(data[..], head, tail)
    }

    constructor (cfg: Config, memory: array<Cell>)
      requires memory.Length == cfg.capacity + 1
      ensures this.cfg == cfg && data == memory && Valid() && Visible() == []
      ensures !dataAvailable && !spaceAvailable
    {
      this.cfg, data := cfg, memory;
      head, tail, dataAvailable, spaceAvailable := 0, 0, false, false;
    }

    /** The start of a transaction: a circular buffer over the shared memory, at the shared positions. */
    method Start() returns (view: CircularBuffer<Cell>)
      requires Valid()
      ensures fresh(view) && view.Valid() && view.buffer == data
      ensures view.head == head && view.tail == tail && view.Elements() == Visible()
    {
      view := new CircularBuffer<Cell>();
      view.SetBuffer(data);
      var headOk := view.SetHead(head);
      var tailOk := view.SetTail(tail);
      assert headOk && tailOk;
    }
  }

  // ---------------------------------------------------------------------------------------------
  // Writing
  // ---------------------------------------------------------------------------------------------

  class OutboundQueue {
    const processId: nat
    const io: IpcBuffer
    var pending: seq<Entry>
    var hasWriteMutex: bool
    var waitingForMutex: bool
    var waitingForSpace: bool
    var inProgress: Option<Entry>
    var written: nat
    var sequence: nat
    var successful: seq<Entry>

    constructor (processId: nat, io: IpcBuffer)
      ensures this.processId == processId && this.io == io
      ensures State() == FRESH_QUEUE && successful == []
    {
      this.processId, this.io := processId, io;
      pending, hasWriteMutex, waitingForMutex, waitingForSpace := [], false, false, false;
      inProgress, written, sequence, successful := None, 0, 0, [];
    }

    function State(): Queue
      reads this
    {
      Queue(pending, hasWriteMutex, waitingForMutex, waitingForSpace, inProgress, written, sequence)
    }

    ghost predicate Ready()
      reads this, io
    {
      io.Valid() && hasWriteMutex && !waitingForMutex && !waitingForSpace
    }

    method AddMessageToQueue(message: Entry)
      requires message.body != []
      modifies this
      ensures State() == old(State()).(pending := old(pending) + [message],
                                       waitingForMutex := old(waitingForMutex) || !hasWriteMutex)
      ensures hasWriteMutex == old(hasWriteMutex) && successful == old(successful)
      ensures old(QueueOk(Idle, State())) ==> QueueOk(Idle, State())
    {
      pending := pending + [message];
      if !hasWriteMutex && !waitingForMutex {
        waitingForMutex := true;
      }
    }

    /** Writes the packet, cut to the ring's capacity if need be, or leaves the ring alone. */
    method WriteOnePacket(wanted: Header, data: seq<byte>, allowLargeMessage: bool)
      returns (ok: bool, header: Header)
      requires io.Valid() && wanted.size == |data| && wanted.last
      modifies io, io.data
      ensures io.Valid() && io.head == old(io.head) && io.spaceAvailable == old(io.spaceAvailable)
      ensures var room := io.cfg.capacity - io.cfg.headerSize;
              && header == (if |data| > room && allowLargeMessage
                            then wanted.(size := room, last := false) else wanted)
              && (ok <==> (|data| <= room || allowLargeMessage)
                          && io.cfg.headerSize + header.size <= io.cfg.capacity - |old(io.Visible())|)
      ensures if ok
              then io.Visible() == old(io.Visible()) + Encode(Packet(header, data[..header.size]), io.cfg.headerSize)
              else io.Visible() == old(io.Visible()) && io.tail == old(io.tail)
      ensures io.dataAvailable == (old(io.dataAvailable) || io.Visible() != [])
    {
      header := wanted;
      var writer := io.Start();
      var spaceNeeded := io.cfg.headerSize + header.size;
      ok := true;
      if spaceNeeded > io.cfg.capacity {
        if allowLargeMessage {
          spaceNeeded := io.cfg.capacity;
          header := header.(size := io.cfg.capacity - io.cfg.headerSize, last := false);
        } else {
          ok := false;
        }
      }
      if ok && spaceNeeded > writer.SpaceAvailable() {
        ok := false;
      }
      if ok {
        PutPacket(writer, header, data[..header.size], io.cfg.headerSize);
      }
      if ok {
        io.tail := writer.tail;
      }
      if writer.DataAvailable() != 0 {
        io.dataAvailable := true;
      }
    }

    /** The header and then the data; both fit. */
    static method PutPacket(writer: CircularBuffer<Cell>, header: Header, body: seq<byte>, headerSize: nat)
      requires writer.Valid() && writer.buffer != null
      requires headerSize + |body| + |writer.Elements()| <= writer.capacity
      modifies writer`tail, writer.buffer
      ensures writer.Valid() && writer.Elements() == old(writer.Elements()) + Encode(Packet(header, body), headerSize)
      ensures forall i | 0 <= i < writer.size && Used(old(writer.tail), i, writer.size) >= headerSize + |body| ::
                writer.buffer[i] == old(writer.buffer[i])
    {
      var n := writer.Write(HeaderCells(header, headerSize));
      var cells := BodyCells(body);
      var m := writer.Write(cells);
      assert cells[..m] == cells;
    }

    /** The front message's next packet, if it may be sent now and fits. */
    ghost predicate CanWrite(allowLargeMessage: bool)
      reads this, io, io.data
      requires io.Valid() && pending != [] && written <= |pending[0].body|
    {
      var p := FrontPacket(io.cfg, processId, State());
      && (p.header.last || allowLargeMessage)
      && io.cfg.headerSize + |p.body| + |io.Visible()| <= io.cfg.capacity
    }

    /** True once the whole message is out; a first or middle packet makes it the message in progress. */
    method WriteOneMessage(message: Entry, allowLargeMessage: bool) returns (complete: bool)
      requires Ready() && QueueOk(Starting(if allowLargeMessage then 0 else 1), State())
      requires pending != [] && message == pending[0]
      modifies this, io, io.data
      ensures Ready() && io.head == old(io.head) && io.spaceAvailable == old(io.spaceAvailable)
      ensures pending == old(pending) && successful == old(successful)
      ensures var p, wrote := old(FrontPacket(io.cfg, processId, State())), old(CanWrite(allowLargeMessage));
              && complete == (wrote && p.header.last)
              && io.Visible() == old(io.Visible()) + (if wrote then Encode(p, io.cfg.headerSize) else [])
              && State() == (if !wrote then old(State())
                             else if complete
                             then old(State()).(inProgress := None, written := 0, sequence := 0)
                             else old(State()).(inProgress := Some(message), written := old(written) + |p.body|,
                                                sequence := p.header.sequence))
      ensures !complete ==> written <= |message.body| && !CanWrite(allowLargeMessage)
      ensures io.dataAvailable == (old(io.dataAvailable) || io.Visible() != [])
    {
      ghost var p := FrontPacket(io.cfg, processId, State());
      var header, data := Header(processId, message.kind, 0, true, |message.body|), message.body;
      if inProgress.Some? {
        assert allowLargeMessage && inProgress == Some(message);
        data := data[written..];
        header := header.(size := header.size - written, sequence := sequence + 1);
      }
      var ok, sent := WriteOnePacket(header, data, allowLargeMessage);
      if ok {
        assert Packet(sent, data[..sent.size]) == p;
        DecodeInvertsEncode(p, io.cfg.headerSize);
      } else {
        complete := false;
        return;
      }
      if sent.last {
        inProgress, written, sequence := None, 0, 0;
        complete := true;
      } else {
        assert inProgress.None? || inProgress == Some(message);
        inProgress, written, sequence := Some(message), written + sent.size, sent.sequence;
        complete := false;
      }
    }

    /** Where the queue, its ring and a reader that follows stand after some packets of a round. */
    ghost predicate Progress(entries: seq<Entry>, told: seq<Entry>, visible: seq<Cell>, end: Assembly,
                             count: nat, packets: seq<Packet>)
      reads this, io, io.data
      requires io.Valid() && count <= |entries|
    {
      && successful == told + entries[..count]
      && io.Visible() == visible + Stream(packets, io.cfg.headerSize)
      && RoundOk(processId, entries, end, count, packets, State())
    }

    /** One turn of the round's loop. */
    method WriteFront(allowLargeMessage: bool, ghost entries: seq<Entry>, ghost told: seq<Entry>,
                      ghost visible: seq<Cell>, ghost end: Assembly, ghost count: nat, ghost before: seq<Packet>)
      returns (complete: bool, ghost packets: seq<Packet>)
      requires Ready() && pending != [] && allowLargeMessage == (count == 0) && count <= |entries|
      requires QueueOk(Starting(count), State()) && Progress(entries, told, visible, end, count, before)
      modifies this, io, io.data
      ensures Ready() && io.head == old(io.head) && io.spaceAvailable == old(io.spaceAvailable)
      ensures complete ==> count < |entries| && Progress(entries, told, visible, end, count + 1, packets)
      ensures !complete ==> Progress(entries, told, visible, end, count, packets) && pending != []
      ensures !complete ==> written <= |pending[0].body| && !CanWrite(allowLargeMessage)
      ensures complete ==> QueueOk(Starting(count + 1), State())
      ensures !complete ==> QueueOk(Starting(count), State())
      ensures !complete && count == 0 ==> io.dataAvailable
      ensures Left(State()) <= old(Left(State())) && (complete ==> Left(State()) < old(Left(State())))
      ensures old(io.Visible()) == [] && count == 0 ==> Left(State()) < old(Left(State()))
    {
      var message := pending[0];
      ghost var q, wrote := State(), CanWrite(allowLargeMessage);
      ghost var p := FrontPacket(io.cfg, processId, q);
      complete := WriteOneMessage(message, allowLargeMessage);
      if complete {
        successful := successful + [message];
        pending := pending[1..];
      }
      assert State() == AfterTurn(q, p, wrote);
      packets := if wrote then before + [p] else before;
      if wrote {
        RoundAdvances(io.cfg, processId, entries, end, count, before, q, p);
        StreamGoesOn(visible, before, p, io.cfg.headerSize);
        OneMore(told, entries, count);
      }
    }

    /** The round's loop. */
    method WriteWhatFits(ghost end: Assembly)
      returns (numWritten: nat, ghost packets: seq<Packet>)
      requires Ready() && pending != [] && QueueOk(Starting(0), State()) && ProgressOk(end, processId, State())
      modifies this, io, io.data
      ensures Ready() && numWritten <= |old(pending)| && QueueOk(Starting(numWritten), State())
      ensures Progress(old(pending), old(successful), old(io.Visible()), end, numWritten, packets)
      ensures numWritten == 0 ==> io.dataAvailable
      ensures pending != [] ==> !CanWrite(numWritten == 0)
      ensures io.head == old(io.head) && io.spaceAvailable == old(io.spaceAvailable)
      ensures Left(State()) <= old(Left(State())) && (old(io.Visible()) == [] ==> Left(State()) < old(Left(State())))
    {
      packets := [];
      numWritten := 0;
      var allowLargeMessage := true;
      ghost var entries, told, visible, left := pending, successful, io.Visible(), Left(State());
      assert CompletesAll(end, []) == MessagesOf(processId, pending[..0]);
      while pending != []
        invariant Ready() && numWritten <= |entries|
        invariant allowLargeMessage == (numWritten == 0)
        invariant numWritten == 0 ==> pending != [] && io.Visible() == visible && Left(State()) == left
        invariant numWritten > 0 ==> Left(State()) < left
        invariant QueueOk(Starting(numWritten), State())
        invariant Progress(entries, told, visible, end, numWritten, packets)
        invariant io.head == old(io.head) && io.spaceAvailable == old(io.spaceAvailable)
        decreases |pending|
      {
        var complete;
        complete, packets := WriteFront(allowLargeMessage, entries, told, visible, end, numWritten, packets);
        if !complete { break; }
        numWritten, allowLargeMessage := numWritten + 1, false;
      }
    }

    /**
      One round with the mutex held: as many whole messages as fit, or one packet of a large one; what
      would come next does not fit, or may not be sent in this round.
      `end` stands for any reader that has taken everything written before: what the round adds to
      the ring makes that reader dispatch exactly the messages that the round counts as successful.
      The mutex is kept only if nothing went out whole, and then the reader has been signalled.
     */
    method WritePendingMessages(ghost end: Assembly) returns (ghost packets: seq<Packet>, ghost count: nat)
      requires Ready() && pending != [] && QueueOk(Starting(0), State()) && ProgressOk(end, processId, State())
      modifies this, io, io.data
      ensures io.Valid() && count <= |old(pending)|
      ensures Progress(old(pending), old(successful), old(io.Visible()), end, count, packets)
      ensures QueueOk(Idle, State()) && hasWriteMutex == waitingForSpace
      ensures pending != [] ==> !CanWrite(count == 0)
      ensures waitingForSpace <==> count == 0
      ensures waitingForSpace ==> io.dataAvailable
      ensures io.head == old(io.head) && io.spaceAvailable == old(io.spaceAvailable)
      ensures Left(State()) <= old(Left(State())) && (old(io.Visible()) == [] ==> Left(State()) < old(Left(State())))
    {
      var numWritten;
      numWritten, packets := WriteWhatFits(end);
      count := numWritten;
      EndRound(numWritten);
    }

    /** The wait on the write mutex or on the space event has returned. */
    method WaitComplete(space: bool, ghost end: Assembly) returns (ghost packets: seq<Packet>, ghost count: nat)
      requires io.Valid() && QueueOk(Idle, State()) && pending != [] && space == waitingForSpace
      requires ProgressOk(end, processId, State())
      modifies this, io, io.data
      ensures io.Valid() && count <= |old(pending)|
      ensures Progress(old(pending), old(successful), old(io.Visible()), end, count, packets)
      ensures QueueOk(Idle, State()) && (waitingForSpace ==> io.dataAvailable)
      ensures pending != [] ==> !CanWrite(count == 0)
      ensures io.head == old(io.head) && io.spaceAvailable == (old(io.spaceAvailable) && !space)
      ensures Left(State()) <= old(Left(State())) && (old(io.Visible()) == [] ==> Left(State()) < old(Left(State())))
    {
      if !space {
        waitingForMutex := false;
        hasWriteMutex := true;
      } else {
        assert hasWriteMutex;
        io.spaceAvailable := false;
        waitingForSpace := false;
      }
      packets, count := WritePendingMessages(end);
    }

    /** Keep the mutex until at least one message is out; otherwise let others have their turn. */
    method EndRound(numWritten: nat)
      requires Ready() && QueueOk(Starting(numWritten), State())
      modifies this`hasWriteMutex, this`waitingForMutex, this`waitingForSpace
      ensures State() == AfterRound(old(State()), numWritten)
      ensures QueueOk(Idle, State()) && hasWriteMutex == waitingForSpace
      ensures waitingForSpace <==> numWritten == 0
      ensures waitingForMutex <==> numWritten != 0 && pending != []
    {
      if numWritten == 0 && pending != [] {
        assert hasWriteMutex && !waitingForSpace;
        waitingForSpace := true;
      } else {
        assert inProgress.None?;
        hasWriteMutex := false;
        if pending != [] { waitingForMutex := true; }
      }
    }
  }

  /** The packets of a round make the reader that follows dispatch the first `count` entries. */
  ghost predicate RoundOk(w: nat, entries: seq<Entry>, end: Assembly, count: nat, packets: seq<Packet>, q: Queue)
    requires count <= |entries|
  {
    && q.pending == entries[count..]
    && InSequence(end, packets) && CompletesAll(end, packets) == MessagesOf(w, entries[..count])
    && ProgressOk(FeedAll(end, packets), w, q)
  }

  lemma StreamGoesOn(visible: seq<Cell>, before: seq<Packet>, p: Packet, h: nat)
    ensures (visible + Stream(before, h)) + Encode(p, h) == visible + Stream(before + [p], h)
  {
    StreamAppend(before, p, h);
    Regroup(visible, Stream(before, h), Encode(p, h));
  }

  lemma OneMore(told: seq<Entry>, entries: seq<Entry>, k: nat)
    requires k < |entries|
    ensures (told + entries[..k]) + [entries[k]] == told + entries[..k + 1]
    ensures entries[k..] != [] && entries[k..][0] == entries[k]
  {
  }

  /** What one turn of the loop does to the queue's fields. */
  function AfterTurn(q: Queue, p: Packet, wrote: bool): Queue
    requires q.pending != []
  {
    if !wrote then q
    else if p.header.last then q.(pending := q.pending[1..], inProgress := None, written := 0, sequence := 0)
    else q.(inProgress := Some(q.pending[0]), written := q.written + |p.body|, sequence := p.header.sequence)
  }

  lemma RoundAdvances(cfg: Config, w: nat, entries: seq<Entry>, end: Assembly, count: nat, before: seq<Packet>,
                      q: Queue, p: Packet)
    requires count < |entries| && QueueOk(Starting(count), q) && q.pending != []
    requires p == FrontPacket(cfg, w, q) && (p.header.last || count == 0)
    requires RoundOk(w, entries, end, count, before, q)
    ensures var q', count' := AfterTurn(q, p, true), if p.header.last then count + 1 else count;
            && RoundOk(w, entries, end, count', before + [p], q') && QueueOk(Starting(count'), q')
            && Left(q') < Left(q)
  {
    FrontPacketAdvances(cfg, FeedAll(end, before), w, q);
    FeedOneMore(end, before, p);
    MessagesOfOneMore(w, entries, count);
    if !p.header.last {
      assert MessagesOf(w, entries[..count]) + [] == MessagesOf(w, entries[..count]);
    }
  }

  /** The loop's turn is the step-by-step model's transaction: same decision, same packet, same bookkeeping. */
  lemma TurnMatchesSteps(cfg: Config, head: nat, tail: nat, w: nat, x: Writer, signal: bool)
    requires x.pc.Starting? && QueueOk(x.pc, x.queue) && x.queue.pending != []
    requires head <= cfg.capacity && tail <= cfg.capacity
    ensures var q, p, count := x.queue, FrontPacket(cfg, w, x.queue), x.pc.count;
            var pc := StartPc(cfg, cfg.capacity + 1, head, tail, w, q, count);
            && (pc.Copying? <==> (p.header.last || count == 0)
                                 && cfg.headerSize + |p.body| + Used(head, tail, cfg.capacity + 1) <= cfg.capacity)
            && (pc.Copying? ==> pc.packet == p && AfterPublishing(x.(pc := pc), signal).queue == AfterTurn(q, p, true))
            && (pc.Copying? ==>
                  AfterPublishing(x.(pc := pc), signal).pc
                  == Signalling(signal, if p.header.last && |q.pending| > 1 then Again(count + 1)
                                        else if p.header.last || count > 0 then Finish else Park, true))
            && (!pc.Copying? ==> pc.Signalling? && pc.next == AfterLoop(count, AfterTurn(q, p, false)))
  {
  }

  /** What the end of a round does to the queue's fields. */
  function AfterRound(q: Queue, count: nat): Queue {
    if count == 0 && q.pending != [] then q.(waitingForSpace := true)
    else q.(hasWriteMutex := false, waitingForMutex := q.waitingForMutex || q.pending != [])
  }

  /** The end of a round is what the step-by-step model's last steps of a round do to the queue. */
  lemma EndMatchesSteps(x: Writer, count: nat)
    requires x.pc.Signalling? && x.pc.next == AfterLoop(count, x.queue) && FlagsOk(x)
    ensures var y := Proceed(x);
            if x.pc.next == Park then y.pc == Idle && y.queue == AfterRound(x.queue, count)
            else y.pc == Releasing && LetGo(y).pc == Idle && LetGo(y).queue == AfterRound(x.queue, count)
  {
  }

  function MessagesOf(source: nat, entries: seq<Entry>): seq<Message> {
    seq(|entries|, i requires 0 <= i < |entries| => Message(source, entries[i].kind, entries[i].body))
  }

  lemma MessagesOfOneMore(source: nat, entries: seq<Entry>, k: nat)
    requires k < |entries|
    ensures MessagesOf(source, entries[..k + 1])
         == MessagesOf(source, entries[..k]) + [Message(source, entries[k].kind, entries[k].body)]
    ensures entries[..k + 1] == entries[..k] + [entries[k]] && entries[k..][1..] == entries[k + 1..]
  {
  }

  // ---------------------------------------------------------------------------------------------
  // Reading
  // ---------------------------------------------------------------------------------------------

  class InboundQueue {
    const io: IpcBuffer
    var lastPacketHeader: Header
    var messageDataBuffer: seq<byte>
    var dispatched: seq<Message>

    constructor (io: IpcBuffer)
      ensures this.io == io && State() == EMPTY_ASSEMBLY && dispatched == []
    {
      this.io := io;
      lastPacketHeader, messageDataBuffer, dispatched := EMPTY_ASSEMBLY.last, [], [];
    }

    function State(): Assembly
      reads this
    {
      Assembly(lastPacketHeader, messageDataBuffer)
    }

    /** The ring holds these packets, and they continue what the queue has gathered. */
    ghost predicate Holds(packets: seq<Packet>)
      reads this, io, io.data
    {
      && io.Valid()
      && io.Visible() == Stream(packets, io.cfg.headerSize) && InSequence(State(), packets)
    }

    /** A packet that starts a message discards what was gathered; any other continues it. */
    method Adopt(header: Header, body: seq<byte>)
      requires Follows(State(), header)
      modifies this`messageDataBuffer, this`lastPacketHeader
      ensures State() == Assembly(header, Gathered(old(State()), Packet(header, body)))
    {
      if header.sequence == 0 {
        messageDataBuffer := [];
      } else {
        assert !lastPacketHeader.last && header.source == lastPacketHeader.source;
        assert header.kind == lastPacketHeader.kind && header.sequence == lastPacketHeader.sequence + 1;
      }
      messageDataBuffer := messageDataBuffer + body;
      lastPacketHeader := header;
    }

    /** Takes one whole packet off the ring, if there is one; the header's fields tell what it was. */
    method ReadOnePacket(ghost packets: seq<Packet>) returns (ok: bool, header: Header)
      requires Holds(packets)
      modifies this, io
      ensures io.Valid() && io.tail == old(io.tail) && io.dataAvailable == old(io.dataAvailable)
      ensures io.spaceAvailable && dispatched == old(dispatched)
      ensures ok <==> packets != []
      ensures ok ==> && io.Visible() == Stream(packets[1..], io.cfg.headerSize) && header == packets[0].header
                     && State() == Assembly(header, Gathered(old(State()), packets[0]))
      ensures !ok ==> io.Visible() == [] && State() == old(State())
    {
      header := EMPTY_ASSEMBLY.last;
      var h := io.cfg.headerSize;
      var reader := io.Start();
      ok := reader.DataAvailable() != 0;
      if ok {
        var body;
        header, body := TakePacket(reader, h, packets);
        Adopt(header, body);
        io.head := reader.head;
      }
      if reader.SpaceAvailable() != 0 {
        io.spaceAvailable := true;
      }
    }

    /** Takes packets up to the end of the next message; `rest` is what stays in the ring. */
    method ReadOneMessage(ghost packets: seq<Packet>)
      returns (ok: bool, message: seq<Message>, ghost rest: seq<Packet>)
      requires Holds(packets)
      modifies this, io
      ensures Holds(rest) && io.tail == old(io.tail) && io.dataAvailable == old(io.dataAvailable)
      ensures io.spaceAvailable && dispatched == old(dispatched)
      ensures |rest| <= |packets| && (ok ==> |rest| < |packets|) && (!ok ==> rest == [] && message == [])
      ensures CompletesAll(old(State()), packets) == message + CompletesAll(State(), rest)
      ensures FeedAll(old(State()), packets) == FeedAll(State(), rest)
    {
      message, rest := [], packets;
      while true
        invariant Holds(rest) && |rest| <= |packets| && message == []
        invariant io.tail == old(io.tail) && io.dataAvailable == old(io.dataAvailable)
        invariant dispatched == old(dispatched)
        invariant CompletesAll(old(State()), packets) == CompletesAll(State(), rest)
        invariant FeedAll(old(State()), packets) == FeedAll(State(), rest)
        decreases |rest|
      {
        ghost var before, was := State(), rest;
        var header;
        ok, header := ReadOnePacket(rest);
        if !ok { return; }
        rest := rest[1..];
        if !header.last { continue; }
        if |messageDataBuffer| > 0 {
          message := [Message(header.source, header.kind, messageDataBuffer)];
          messageDataBuffer := [];
        }
        assert (State(), message) == AfterRead(before, was[0]) == (Feed(before, was[0]), Completes(before, was[0]));
        return;
      }
    }

    /** Drains the ring: every message its packets complete is dispatched, in order. */
    method ReadAndDispatchMessages(ghost packets: seq<Packet>)
      requires Holds(packets)
      modifies this, io
      ensures io.Valid() && io.Visible() == [] && io.spaceAvailable && io.dataAvailable == old(io.dataAvailable)
      ensures dispatched == old(dispatched) + CompletesAll(old(State()), packets)
      ensures State() == FeedAll(old(State()), packets)
    {
      ghost var rest := packets;
      var ok := true;
      while ok
        invariant Holds(rest) && io.dataAvailable == old(io.dataAvailable)
        invariant !ok ==> rest == [] && io.spaceAvailable
        invariant old(dispatched) + CompletesAll(old(State()), packets) == dispatched + CompletesAll(State(), rest)
        invariant FeedAll(old(State()), packets) == FeedAll(State(), rest)
        decreases ok, |rest|
      {
        var message;
        ghost var before, was := State(), rest;
        ok, message, rest := ReadOneMessage(rest);
        Regroup(dispatched, message, CompletesAll(State(), rest));
        dispatched := dispatched + message;
      }
    }
  }

  /** What is kept of a packet that was read, and the message that it completed. */
  function AfterRead(a: Assembly, p: Packet): (Assembly, seq<Message>) {
    var b := Assembly(p.header, Gathered(a, p));
    if p.header.last && b.buffer != []
    then (b.(buffer := []), [Message(p.header.source, p.header.kind, b.buffer)])
    else (b, [])
  }

  /** Reading a packet is what the step-by-step model's reader does once it has copied the packet. */
  lemma ReadMatchesSteps(s: State)
    requires DataInv(s) && s.reader.Reading? && |s.reader.got| == |Encode(s.ring[0], s.cfg.headerSize)|
    ensures var s', (kept, message) := ReadOn(s), AfterRead(s.assembly, s.ring[0]);
            && s'.assembly == kept && s'.reader == SignallingSpace(message, true, true)
            && Positioned(s') && Contents(s'.cells, s'.head, s'.tail) == Stream(s.ring[1..], s.cfg.headerSize)
  {
    ReadOnConsumes(s);
    DecodeInvertsEncode(s.ring[0], s.cfg.headerSize);
    ConsumeKeepsRing(s, s.reader.got);
  }

  // ---------------------------------------------------------------------------------------------
  // Together
  // ---------------------------------------------------------------------------------------------

  /** The receiver has dispatched the first `sent` entries, and the ring is empty. */
  ghost predicate Between(sender: OutboundQueue, receiver: InboundQueue, entries: seq<Entry>, sent: nat)
    reads sender, receiver, sender.io, sender.io.data
  {
    && sender.io == receiver.io && sender.io.Valid() && sender.io.Visible() == []
    && QueueOk(Idle, sender.State()) && ProgressOk(receiver.State(), sender.processId, sender.State())
    && sent <= |entries| && sender.pending == entries[sent..]
  }

  /** The sender writes what it can, then the receiver reads everything. */
  method TakeTurns(sender: OutboundQueue, receiver: InboundQueue, ghost entries: seq<Entry>, ghost sent: nat)
    returns (ghost sent': nat)
    requires Between(sender, receiver, entries, sent) && sender.pending != []
    modifies sender, receiver, sender.io, sender.io.data
    ensures sent <= sent' && Between(sender, receiver, entries, sent')
    ensures sender.successful == old(sender.successful) + entries[sent..sent']
    ensures receiver.dispatched == old(receiver.dispatched) + MessagesOf(sender.processId, entries[sent..sent'])
    ensures 0 <= Left(sender.State()) < old(Left(sender.State()))
  {
    ghost var packets, count := sender.WaitComplete(sender.waitingForSpace, receiver.State());
    assert sender.io.Visible() == Stream(packets, sender.io.cfg.headerSize);
    receiver.ReadAndDispatchMessages(packets);
    sent' := sent + count;
    assert entries[sent..][..count] == entries[sent..sent'];
    assert entries[sent..][count..] == entries[sent'..];
    LeftIsNatural(Idle, sender.State());
  }

  /**
    A sender and a receiver taking turns: whatever the sizes of the messages and of the ring, after
    finitely many rounds the receiver has dispatched exactly the pending messages, in order.
   */
  method Exchange(sender: OutboundQueue, receiver: InboundQueue)
    requires sender.io == receiver.io && sender.io.Valid() && sender.io.Visible() == []
    requires QueueOk(Idle, sender.State()) && ProgressOk(receiver.State(), sender.processId, sender.State())
    modifies sender, receiver, sender.io, sender.io.data
    ensures sender.pending == [] && sender.successful == old(sender.successful) + old(sender.pending)
    ensures receiver.dispatched == old(receiver.dispatched) + MessagesOf(sender.processId, old(sender.pending))
  {
    ghost var entries: seq<Entry>, sent: nat := sender.pending, 0;
    while sender.pending != []
      invariant Between(sender, receiver, entries, sent)
      invariant sender.successful == old(sender.successful) + entries[..sent]
      invariant receiver.dispatched == old(receiver.dispatched) + MessagesOf(sender.processId, entries[..sent])
      decreases Left(sender.State())
    {
      ghost var sent' := TakeTurns(sender, receiver, entries, sent);
      TurnsAdd(sender.processId, entries, sent, sent');
      sent := sent';
    }
    assert entries[..sent] == entries;
  }

  lemma TurnsAdd(w: nat, entries: seq<Entry>, sent: nat, sent': nat)
    requires sent <= sent' <= |entries|
    ensures entries[..sent] + entries[sent..sent'] == entries[..sent']
    ensures MessagesOf(w, entries[..sent]) + MessagesOf(w, entries[sent..sent']) == MessagesOf(w, entries[..sent'])
  {
  }

  /** Reads exactly n elements into a buffer of its own. */
  method Take(reader: CircularBuffer<Cell>, n: nat) returns (cells: seq<Cell>)
    requires reader.Valid() && n <= reader.DataAvailable()
    modifies reader`head
    ensures reader.Valid() && reader.Elements() == old(reader.Elements())[n..]
    ensures cells == old(reader.Elements())[..n]
  {
    var data := new Cell[n];
    var m := reader.Read(data, n);
    cells := data[..];
    assert cells == data[..n];
  }

  /** The header and the data of the first packet. */
  method TakePacket(reader: CircularBuffer<Cell>, h: nat, ghost packets: seq<Packet>)
    returns (header: Header, body: seq<byte>)
    requires reader.Valid() && 0 < h && packets != [] && WellSized(packets[0])
    requires reader.Elements() == Stream(packets, h)
    modifies reader`head
    ensures reader.Valid() && reader.Elements() == Stream(packets[1..], h)
    ensures header == packets[0].header && body == packets[0].body
  {
    PacketInStream(packets, h);
    var raw := Take(reader, h);
    header := DecodeHeader(raw).value;
    body := [];
    if header.size > 0 {
      var cells := Take(reader, header.size);
      body := DecodeBody(cells);
    }
  }

  lemma PacketInStream(packets: seq<Packet>, h: nat)
    requires packets != [] && 0 < h && WellSized(packets[0])
    ensures var s, p := Stream(packets, h), packets[0];
            && h + |p.body| <= |s|
            && DecodeHeader(s[..h]) == Some(p.header)
            && DecodeBody(s[h..][..|p.body|]) == p.body
            && s[h..][|p.body|..] == Stream(packets[1..], h)
            && (|p.body| == 0 ==> s[h..] == Stream(packets[1..], h))
  {
    var s, p := Stream(packets, h), packets[0];
    var e := Encode(p, h);
    DecodeInvertsEncode(p, h);
    assert s == e + Stream(packets[1..], h);
    assert s[..h] == e[..h] && s[h..][..|p.body|] == e[h..];
  }
}
