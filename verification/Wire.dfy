/**
  The wire format: what one packet looks like in the ring, and how the reader turns a run of
  packets back into messages.

  The packet header is a C structure copied as raw memory.  Its size is left symbolic: a header
  occupies `headerSize` cells, and cell i carries slice i of the structure.  The structure is read
  back exactly when all its slices are read back in order.
 */
module Wire {
  import opened Basics

  /** sizeof(MessagePacketHeader) and IpcBuffer::kCapacity. */
  datatype Sizes = Sizes(headerSize: nat, capacity: nat)
  type Config = c: Sizes | 0 < c.headerSize < c.capacity witness Sizes(1, 2)

  datatype Header = Header(source: nat, kind: int, sequence: nat, last: bool, size: nat)
  datatype Packet = Packet(header: Header, body: seq<byte>)
  datatype Cell = Slice(header: Header, index: nat) | Data(value: byte)

  datatype Message = Message(source: nat, kind: int, body: seq<byte>)

  // ---------------------------------------------------------------------------------------------
  // Packets as cells
  // ---------------------------------------------------------------------------------------------

  function HeaderCells(h: Header, n: nat): seq<Cell> {
    seq(n, i requires 0 <= i < n => Slice(h, i))
  }

  function BodyCells(body: seq<byte>): seq<Cell> {
    seq(|body|, i requires 0 <= i < |body| => Data(body[i]))
  }

  function Encode(p: Packet, n: nat): seq<Cell> {
    HeaderCells(p.header, n) + BodyCells(p.body)
  }

  /** The structure found in the given cells, if they are the slices of one structure in order. */
  function DecodeHeader(cells: seq<Cell>): Option<Header> {
    if cells != [] && cells[0].Slice? && forall i | 0 <= i < |cells| :: cells[i] == Slice(cells[0].header, i)
    then Some(cells[0].header)
    else None
  }

  /** The bytes found in the given cells; a cell that holds part of a structure reads as garbage. */
  function DecodeBody(cells: seq<Cell>): seq<byte> {
    seq(|cells|, i requires 0 <= i < |cells| => if cells[i].Data? then cells[i].value else 0)
  }

  predicate WellSized(p: Packet) {
    p.header.size == |p.body|
  }

  /** All packets of a list, one after the other. */
  function Stream(ps: seq<Packet>, n: nat): seq<Cell> {
    if ps == [] then [] else Encode(ps[0], n) + Stream(ps[1..], n)
  }

  /** Reading a packet's cells back yields the packet. */
  lemma DecodeInvertsEncode(p: Packet, n: nat)
    requires 0 < n
    ensures |Encode(p, n)| == n + |p.body|
    ensures DecodeHeader(Encode(p, n)[..n]) == Some(p.header)
    ensures DecodeBody(Encode(p, n)[n..]) == p.body
  {
    var e := Encode(p, n);
    assert e[..n] == HeaderCells(p.header, n);
    assert e[n..] == BodyCells(p.body);
    assert e[..n][0] == Slice(p.header, 0);
    assert DecodeBody(BodyCells(p.body)) == p.body;
  }

  lemma {:induction false} StreamAppend(ps: seq<Packet>, p: Packet, n: nat)
    ensures Stream(ps + [p], n) == Stream(ps, n) + Encode(p, n)
  {
    if ps == [] {
      assert Stream([p], n) == Encode(p, n) + Stream([], n);
    } else {
      assert (ps + [p])[1..] == ps[1..] + [p];
      StreamAppend(ps[1..], p, n);
    }
  }

  // ---------------------------------------------------------------------------------------------
  // Reassembly
  // ---------------------------------------------------------------------------------------------

  /** What the reader keeps between packets: the last header it saw and the bytes gathered so far. */
  datatype Assembly = Assembly(last: Header, buffer: seq<byte>)

  const EMPTY_ASSEMBLY := Assembly(Header(0, 0, 0, true, 0), [])

  /** The reader's asserts about a header that does not start a message. */
  predicate Follows(a: Assembly, h: Header) {
    h.sequence != 0 ==>
      && !a.last.last
      && h.source == a.last.source
      && h.kind == a.last.kind
      && h.sequence == a.last.sequence + 1
  }

  function Gathered(a: Assembly, p: Packet): seq<byte> {
    (if p.header.sequence == 0 then [] else a.buffer) + p.body
  }

  function Feed(a: Assembly, p: Packet): Assembly {
    Assembly(p.header, if p.header.last then [] else Gathered(a, p))
  }

  /** The message, if any, that this packet completes; an empty one is not dispatched. */
  function Completes(a: Assembly, p: Packet): seq<Message> {
    if p.header.last && Gathered(a, p) != []
    then [Message(p.header.source, p.header.kind, Gathered(a, p))]
    else []
  }

  function FeedAll(a: Assembly, ps: seq<Packet>): Assembly
    decreases ps
  {
    if ps == [] then a else FeedAll(Feed(a, ps[0]), ps[1..])
  }

  function CompletesAll(a: Assembly, ps: seq<Packet>): seq<Message>
    decreases ps
  {
    if ps == [] then [] else Completes(a, ps[0]) + CompletesAll(Feed(a, ps[0]), ps[1..])
  }

  /** The reader can take these packets in order without one of its asserts failing. */
  predicate InSequence(a: Assembly, ps: seq<Packet>)
    decreases ps
  {
    ps == [] || (WellSized(ps[0]) && Follows(a, ps[0].header) && InSequence(Feed(a, ps[0]), ps[1..]))
  }

  lemma {:induction false} FeedOneMore(a: Assembly, ps: seq<Packet>, p: Packet)
    ensures FeedAll(a, ps + [p]) == Feed(FeedAll(a, ps), p)
    ensures CompletesAll(a, ps + [p]) == CompletesAll(a, ps) + Completes(FeedAll(a, ps), p)
    ensures InSequence(a, ps + [p])
       <==> InSequence(a, ps) && WellSized(p) && Follows(FeedAll(a, ps), p.header)
    decreases ps
  {
    if ps == [] {
      assert CompletesAll(a, [p]) == Completes(a, p) + CompletesAll(Feed(a, p), []);
      assert [p][1..] == [];
    } else {
      assert (ps + [p])[1..] == ps[1..] + [p];
      FeedOneMore(Feed(a, ps[0]), ps[1..], p);
    }
  }

  // ---------------------------------------------------------------------------------------------
  // Fragmentation
  // ---------------------------------------------------------------------------------------------

  /** The packet the writer would like to send next: the rest of the body, cut to the ring's capacity. */
  function NextPacket(cfg: Config, source: nat, kind: int, body: seq<byte>,
                      written: nat, sequence: nat): Packet
    requires written <= |body|
  {
    var rest := body[written..];
    var room := cfg.capacity - cfg.headerSize;
    if |rest| > room
    then Packet(Header(source, kind, sequence, false, room), rest[..room])
    else Packet(Header(source, kind, sequence, true, |rest|), rest)
  }

  /** All packets of one message, from byte `written` on. */
  function Fragments(cfg: Config, source: nat, kind: int, body: seq<byte>,
                     written: nat, sequence: nat): seq<Packet>
    requires written <= |body|
    decreases |body| - written
  {
    var p := NextPacket(cfg, source, kind, body, written, sequence);
    if p.header.last then [p]
    else [p] + Fragments(cfg, source, kind, body, written + |p.body|, sequence + 1)
  }

  /** A reader that has taken the first `written` bytes is in this state. */
  predicate MidMessage(a: Assembly, source: nat, kind: int, body: seq<byte>, written: nat, sequence: nat)
    requires written <= |body|
  {
    sequence != 0 ==>
      && !a.last.last && a.last.source == source && a.last.kind == kind
      && a.last.sequence + 1 == sequence
      && a.buffer == body[..written]
  }

  /** One packet of a message moves the reader from its first `written` bytes to the next point. */
  lemma NextPacketAdvances(cfg: Config, a: Assembly, source: nat, kind: int, body: seq<byte>,
                           written: nat, sequence: nat)
    requires written < |body| && (sequence == 0 ==> written == 0)
    requires MidMessage(a, source, kind, body, written, sequence)
    ensures var p := NextPacket(cfg, source, kind, body, written, sequence);
            && WellSized(p) && Follows(a, p.header) && p.body != []
            && |Encode(p, cfg.headerSize)| <= cfg.capacity
            && Gathered(a, p) == body[..written + |p.body|]
            && (p.header.last <==> written + |p.body| == |body|)
            && (p.header.last ==> Completes(a, p) == [Message(source, kind, body)])
            && (!p.header.last ==> Completes(a, p) == [])
            && (!p.header.last ==> MidMessage(Feed(a, p), source, kind, body, written + |p.body|, sequence + 1))
  {
    var p := NextPacket(cfg, source, kind, body, written, sequence);
    DecodeInvertsEncode(p, cfg.headerSize);
    assert body[..written] + p.body == body[..written + |p.body|];
    assert body[..|body|] == body;
  }

  /**
    Reassembly inverts fragmentation: whatever the reader held before, a message cut into packets
    comes out once and byte for byte, no assert fails, and no packet is larger than the ring.
   */
  lemma {:induction false} ReassemblyInvertsFragmentation(cfg: Config, a: Assembly, source: nat, kind: int,
                                                          body: seq<byte>, written: nat, sequence: nat)
    requires written < |body| && (sequence == 0 ==> written == 0)
    requires MidMessage(a, source, kind, body, written, sequence)
    ensures var ps := Fragments(cfg, source, kind, body, written, sequence);
            && InSequence(a, ps)
            && CompletesAll(a, ps) == [Message(source, kind, body)]
            && forall p | p in ps :: |Encode(p, cfg.headerSize)| <= cfg.capacity
    decreases |body| - written
  {
    FragmentsFit(cfg, source, kind, body, written, sequence);
    var p := NextPacket(cfg, source, kind, body, written, sequence);
    NextPacketAdvances(cfg, a, source, kind, body, written, sequence);
    if p.header.last {
      LastPacket(a, p);
    } else {
      var rest := Fragments(cfg, source, kind, body, written + |p.body|, sequence + 1);
      ReassemblyInvertsFragmentation(cfg, Feed(a, p), source, kind, body, written + |p.body|, sequence + 1);
      PacketBefore(a, p, rest);
    }
  }

  lemma {:induction false} FragmentsFit(cfg: Config, source: nat, kind: int, body: seq<byte>, written: nat,
                                        sequence: nat)
    requires written < |body|
    ensures forall p | p in Fragments(cfg, source, kind, body, written, sequence) ::
              |Encode(p, cfg.headerSize)| <= cfg.capacity
    decreases |body| - written
  {
    var p := NextPacket(cfg, source, kind, body, written, sequence);
    DecodeInvertsEncode(p, cfg.headerSize);
    if !p.header.last { FragmentsFit(cfg, source, kind, body, written + |p.body|, sequence + 1); }
  }

  lemma LastPacket(a: Assembly, p: Packet)
    requires WellSized(p) && Follows(a, p.header)
    ensures InSequence(a, [p]) && CompletesAll(a, [p]) == Completes(a, p)
  {
    assert [p][1..] == [];
  }

  lemma PacketBefore(a: Assembly, p: Packet, ps: seq<Packet>)
    requires WellSized(p) && Follows(a, p.header) && InSequence(Feed(a, p), ps)
    ensures InSequence(a, [p] + ps)
    ensures CompletesAll(a, [p] + ps) == Completes(a, p) + CompletesAll(Feed(a, p), ps)
  {
    assert ([p] + ps)[1..] == ps;
  }
}
