/**
  Snapshots of a byte store, and byte stores over whole runs.
 */
module Blobs {
  import opened Basics
  import opened MemoryBuffers
  import opened ByteStores

  /** What reading a plain string of bytes returns through the blob interface. */
  function BlobRead(s: seq<byte>, offset: int, max: int): (int, seq<byte>) {
    if offset >= |s| then (0, [])
    else if offset < 0 || max < 0 then (-1, [])
    else (|Part(s, offset, max)|, Part(s, offset, max))
  }

  /** What reading a plain string of bytes returns through the store's own interface. */
  function StoreRead(s: seq<byte>, offset: int, max: int): (int, seq<byte>) {
    if offset < 0 || max < 0 then (-1, []) else (|Part(s, offset, max)|, Part(s, offset, max))
  }

  /** How far a blob of that length lets a read go. */
  function Clamp(length: int, offset: int, max: int): int {
    if offset + max >= length then length - offset else max
  }

  /** Reading no further than a prefix of a string shows only the prefix. */
  lemma PartOfPrefix(s: seq<byte>, t: seq<byte>, offset: nat, max: nat)
    requires s <= t && offset < |s|
    ensures Part(t, offset, Clamp(|s|, offset, max)) == Part(s, offset, max)
  {
  }

  class Blob {
    const store: ByteStore
    const length: int
    ghost const snapshot: seq<byte>

    ghost predicate Valid()
      reads store, store.data, store.readBuffer, store.writeBuffer, store.file
    {
      store.Shape() && length == |snapshot|
    }

    /** The store still begins with the bytes it had when the blob was made. */
    ghost predicate Intact()
      reads store, store.data, store.readBuffer, store.writeBuffer, store.file
      requires store.Shape()
    {
      snapshot <= store.Visible()
    }

    constructor (s: ByteStore)
      requires s.Core()
      ensures store == s && snapshot == s.Model() && Valid() && Intact()
    {
      store, length, snapshot := s, s.length, s.Model();
    }

    method Read(offset: int, max: int) returns (n: int, out: seq<byte>)
      requires Valid()
      modifies store`fileOp, store.file
      ensures Valid() && store.Visible() == old(store.Visible())
      ensures (store.Core() <==> old(store.Core())) && (store.Valid() <==> old(store.Valid()))
      ensures old(store.Core()) ==> store.Model() == old(store.Model())
      ensures (n, out) == if offset >= length then (0, [])
                          else StoreRead(store.Visible(), offset, Clamp(length, offset, max))
      ensures Intact() ==> (n, out) == BlobRead(snapshot, offset, max)
    {
      if offset >= length { return 0, []; }
      var most := if offset + max >= length then length - offset else max;
      ghost var seen := store.Visible();
      n, out := store.Read(offset, most);
      if offset >= 0 && max >= 0 && snapshot <= seen { PartOfPrefix(snapshot, seen, offset, max); }
    }

    method ReadDirect(reader: Reader, offset: int, max: int) returns (total: int)
      requires Valid() && Intact() && !reader.done
      modifies store`fileOp, store.file, store.readBuffer, reader
      ensures Valid() && store.Visible() == old(store.Visible())
      ensures (store.Core() <==> old(store.Core())) && (store.Valid() <==> old(store.Valid()))
      ensures var (n, bytes) := BlobRead(snapshot, offset, max);
              && total <= n && (total == n || reader.done)
              && reader.taken == old(reader.taken) + if total > 0 then bytes[..total] else []
    {
      if offset >= length { return 0; }
      var most := if offset + max >= length then length - offset else max;
      ghost var seen := store.Visible();
      total := store.ReadDirect(reader, offset, most);
      if offset >= 0 && max >= 0 {
        PartOfPrefix(snapshot, seen, offset, max);
        PartOfPart(seen, offset, most, total);
      }
    }
  }

  lemma PartOfPart(s: seq<byte>, offset: nat, max: nat, total: nat)
    requires total <= |Part(s, offset, max)|
    ensures Part(s, offset, total) == Part(s, offset, max)[..total]
  {
  }

  // ---------------------------------------------------------------------------------------------
  // What a store is to its users
  // ---------------------------------------------------------------------------------------------

  /**
    The bytes of an add that is pending: where the asynchronous writer was told to leave them, or, if
    the store has moved away from under the add, n bytes of it, with what is left of them after the
    stored ones.
   */
  datatype Reserved =
    | Nothing
    | InMemory(bytes: seq<byte>)
    | InBuffer(bytes: seq<byte>)
    | Astray(n: nat, tail: seq<byte>)
  {
    function Length(): nat {
      match this
      case Nothing => 0
      case InMemory(bytes) => |bytes|
      case InBuffer(bytes) => |bytes|
      case Astray(n, _) => n
    }
  }

  /** The store's maximum size in memory is the limit, and what fits its write buffer the room. */
  datatype View = View(stored: seq<byte>, reserved: Reserved, inFile: bool, finalized: bool, limit: nat,
                       buffer: nat, room: bool, steady: bool, troubles: nat)
  {
    /** What a reader can see. */
    function Visible(): seq<byte> {
      stored + if reserved.InMemory? then reserved.bytes else if reserved.Astray? then reserved.tail else []
    }

    predicate Stranded() { reserved.InBuffer? && !inFile }

    /** A pending add can be finished as it was meant to be. */
    predicate Valid() { !reserved.Astray? && !Stranded() }

    predicate Fits(max: int) { !inFile && |stored| + max <= limit }

    /** No assertion fails if n bytes of the pending add are kept. */
    predicate CanFinish(n: nat) {
      if inFile then 0 < buffer && n <= buffer else reserved.Length() - n <= |Visible()|
    }
  }

  /** A store that holds what it claims; with no add pending, nothing but that. */
  ghost predicate Sound(store: ByteStore)
    reads store, store.data, store.readBuffer, store.writeBuffer, store.file
  {
    store.Core() && (store.asyncAddLength == 0 ==> store.Valid())
  }

  ghost function ReservedOf(store: ByteStore): Reserved
    reads store, store.data, store.readBuffer, store.writeBuffer, store.file
    requires Sound(store)
  {
    if store.asyncAddLength == 0 then Nothing
    else if store.Valid() && store.file == null then InMemory(store.Pending())
    else if store.Valid() || store.Stranded() then InBuffer(store.Pending())
    else Astray(store.asyncAddLength, store.Visible()[store.length..])
  }

  ghost function ViewOf(store: ByteStore): View
    reads store, store.data, store.readBuffer, store.writeBuffer, store.file, store.disk
    requires Sound(store)
  {
    View(store.Model(), ReservedOf(store), store.file != null, store.isFinalized, store.maxBufferSize,
         store.writeBuffer.size, store.disk.room, store.disk.steady, store.troubles)
  }

  /** The view says what the store says. */
  lemma ViewIsRight(store: ByteStore)
    requires Sound(store)
    ensures var v := ViewOf(store);
            && v.Visible() == store.Visible() && v.reserved.Length() == store.asyncAddLength
            && (v.Valid() <==> store.Valid()) && (v.Stranded() <==> store.Stranded())
            && forall n :: v.CanFinish(n) || v.reserved.Nothing? <==> store.CanFinish(n)
  {
  }

  // ---------------------------------------------------------------------------------------------
  // Commands and what they do
  // ---------------------------------------------------------------------------------------------

  /** `DiskTurns` is the world outside: from now on the disk has room and is steady, or not. */
  datatype Command =
    | Add(bytes: seq<byte>)
    | AddDirect(script: seq<Response>, max: int)
    | Fill(bytes: seq<byte>)
    | Finish(n: nat)
    | Read(offset: int, max: int)
    | ReadDirect(offset: int, max: int)
    | Reserve(num: int)
    | ShowElement
    | Finalize
    | DiskTurns(room: bool, steady: bool)

  /** What a command answers; `Taken` is what a reader takes, and whether it stopped of itself. */
  datatype Outcome =
    | Skipped
    | Done
    | Direct(added: seq<byte>, lost: seq<byte>, turn: Turn)
    | Answered(n: int, bytes: seq<byte>)
    | Taken(n: int, bytes: seq<byte>, stopped: bool)
    | Shown(element: Option<seq<byte>>)

  /**
    The store's own assertions at the start of the command hold, and a writer fills only what it was
    given, and only where that still is.
   */
  predicate Allowed(v: View, c: Command) {
    match c
    case Add(_) => !v.finalized && v.reserved.Nothing?
    case AddDirect(_, _) => !v.finalized && v.reserved.Nothing?
    case Fill(bytes) => !v.reserved.Astray? && |bytes| <= v.reserved.Length()
    case Finish(n) => !v.finalized && n <= v.reserved.Length()
    case _ => true
  }

  /** A finish on a store that is stranded, or has moved to a file in between, breaks it. */
  predicate Breaks(v: View, c: Command) {
    Allowed(v, c) && c.Finish? && !v.Valid()
  }

  /** The command asks for all of the memory the store may have, or for the last of it. */
  predicate AsksForAll(v: View, c: Command) {
    && Allowed(v, c) && !v.inFile
    && match c
       case Add(bytes) => bytes != [] && |v.stored| + |bytes| == v.limit
       case AddDirect(_, max) => max >= 0 && |v.stored| + max == v.limit
       case Finish(n) => !v.reserved.Nothing? && v.Valid() && |v.stored| + n == v.limit
       case Reserve(num) => num == v.limit
       case _ => false
  }

  /** Only the stored bytes, the pending add and where they are may change; the file system may fail once. */
  predicate Moves(v: View, w: View) {
    && w == v.(stored := w.stored, reserved := w.reserved, inFile := w.inFile, buffer := w.buffer,
               troubles := w.troubles)
    && (v.inFile ==> w.inFile) && (w.inFile ==> v.inFile || v.room)
    && (w.troubles == v.troubles || w.troubles == v.troubles + 1)
    && (v.steady && (v.inFile || v.room) ==> w.troubles == v.troubles)
  }

  predicate Adds(v: View, bytes: seq<byte>, w: View) {
    && Moves(v, w) && w.reserved.Nothing? && w.buffer == v.buffer
    && w.stored == (if w.troubles > v.troubles then v.stored else v.stored + bytes)
    && if bytes == [] || v.Fits(|bytes|) then w.troubles == v.troubles && w.inFile == v.inFile
       else w.troubles == v.troubles ==> w.inFile
  }

  predicate AddsDirect(v: View, script: seq<Response>, max: nat, o: Outcome, w: View) {
    && o.Direct? && Moves(v, w) && w.stored == v.stored + o.added && |o.added| <= max
    && var all := Handed(script, max, v.limit);
    && (if o.lost == [] then (o.added, o.turn) == all else o.turn == Gave && o.added + o.lost <= all.0)
    && w.reserved.Length() == (if o.turn == WentAsync then Min(max - |o.added|, v.limit) else 0)
    && w.troubles == (if o.lost != [] || w.Stranded() then v.troubles + 1 else v.troubles)
    && if v.Fits(max) then
         && w.inFile == v.inFile && w.troubles == v.troubles && w.buffer == v.buffer
         && if o.turn == WentAsync then w.reserved.InMemory? else w.reserved.Nothing?
       else
         && w.buffer == Max(v.buffer, Min(max, v.limit)) && (o.added != [] ==> w.inFile)
         && if o.turn == WentAsync then w.reserved.InBuffer? else w.reserved.Nothing?
  }

  function Filled(r: Reserved, bytes: seq<byte>): Reserved {
    match r
    case InMemory(was) => InMemory(Overwrite(was, 0, bytes))
    case InBuffer(was) => InBuffer(Overwrite(was, 0, bytes))
    case _ => r
  }

  predicate Finishes(v: View, n: nat, w: View)
    requires v.Valid() && n <= v.reserved.Length()
  {
    && Moves(v, w) && w.reserved.Nothing? && w.buffer == v.buffer && w.inFile == v.inFile
    && (!v.inFile || v.reserved.Nothing? ==> w.troubles == v.troubles)
    && w.stored == if w.troubles > v.troubles || v.reserved.Nothing? then v.stored else v.stored + v.reserved.bytes[..n]
  }

  /** Reserving is not seen, but that the bytes of an add pending in memory go along to a file. */
  predicate Reserves(v: View, num: int, w: View) {
    if v.inFile || num <= v.limit then w == v
    else
      && Moves(v, w) && w.stored == v.stored && w.buffer == v.buffer
      && w.troubles == (if w.inFile then v.troubles else v.troubles + 1)
      && w.reserved == if !w.inFile || !v.reserved.InMemory? then v.reserved
                       else Astray(|v.reserved.bytes|, v.reserved.bytes)
  }

  /** The command, if it is allowed and does not break the store, answers this and leads there. */
  predicate Does(v: View, c: Command, o: Outcome, w: View) {
    if !Allowed(v, c) || Breaks(v, c) then o == Skipped && w == v
    else match c
      case Add(bytes) => o == Done && Adds(v, bytes, w)
      case AddDirect(script, max) =>
        if max < 0 then o == Direct([], [], Gave) && w == v else AddsDirect(v, script, max, o, w)
      case Fill(bytes) => o == Done && w == v.(reserved := Filled(v.reserved, bytes))
      case Finish(n) => o == Done && Finishes(v, n, w)
      case Read(offset, max) =>
        var answer := StoreRead(v.Visible(), offset, max);
        o == Answered(answer.0, answer.1) && w == v
      case ReadDirect(offset, max) =>
        var answer := StoreRead(v.Visible(), offset, max);
        && o.Taken? && o.bytes <= answer.1 && (o.bytes == answer.1 || o.stopped)
        && o.n == (if answer.0 < 0 then -1 else |o.bytes|) && w == v
      case Reserve(num) => o == Done && Reserves(v, num, w)
      case ShowElement => o == Shown(if v.inFile then None else Some(v.Visible())) && w == v
      case Finalize =>
        && o == Done
        && w == v.(finalized := true, buffer := 0,
                   reserved := if v.reserved.InBuffer? then Astray(|v.reserved.bytes|, []) else v.reserved)
      case DiskTurns(room, steady) => o == Done && w == v.(room := room, steady := steady)
  }

  datatype Event = Event(command: Command, outcome: Outcome, before: View, after: View)

  const FRESH_VIEW := View([], Nothing, false, false, INITIAL_CAPACITY, 0, true, true, 0)

  /** An event that can happen. */
  type Step = e: Event | Does(e.before, e.command, e.outcome, e.after)
    witness Event(DiskTurns(true, true), Done, FRESH_VIEW, FRESH_VIEW)

  method PerformAdd(store: ByteStore, bytes: seq<byte>)
    requires Sound(store) && Allowed(ViewOf(store), Add(bytes))
    modifies store.Repr()
    ensures Sound(store) && fresh(store.Repr() - old(store.Repr()))
    ensures Adds(old(ViewOf(store)), bytes, ViewOf(store))
    ensures store.Pins(AsksForAll(old(ViewOf(store)), Add(bytes)))
  {
    var ok := store.AddData(bytes);
  }

  method PerformDirect(store: ByteStore, script: seq<Response>, max: int) returns (ghost o: Outcome)
    requires Sound(store) && Allowed(ViewOf(store), AddDirect(script, max))
    modifies store.Repr()
    ensures Sound(store) && fresh(store.Repr() - old(store.Repr()))
    ensures Does(old(ViewOf(store)), AddDirect(script, max), o, ViewOf(store))
    ensures store.Pins(AsksForAll(old(ViewOf(store)), AddDirect(script, max)))
  {
    if max < 0 {
      var writer := new Writer(script);
      var total;
      ghost var added, lost;
      total, added, lost := store.AddDataDirect(writer, max);
      o := Direct([], [], Gave);
    } else {
      o := PerformDirectAdd(store, script, max);
    }
  }

  method PerformDirectAdd(store: ByteStore, script: seq<Response>, max: nat) returns (ghost o: Outcome)
    requires Sound(store) && Allowed(ViewOf(store), AddDirect(script, max))
    modifies store.Repr()
    ensures Sound(store) && fresh(store.Repr() - old(store.Repr()))
    ensures AddsDirect(old(ViewOf(store)), script, max, o, ViewOf(store))
    ensures store.Pins(AsksForAll(old(ViewOf(store)), AddDirect(script, max)))
  {
    var writer := new Writer(script);
    var total;
    ghost var added, lost;
    ghost var v := ViewOf(store);
    total, added, lost := store.AddDataDirect(writer, max);
    o := Direct(added, lost, writer.turn);
    ghost var w := ViewOf(store);
    ReservedIsRight(store);
    assert v.Fits(max) <==> old(store.Fits(max));
    assert Moves(v, w) && Min(max - |o.added|, v.limit) == Min(max - total, store.maxBufferSize);
  }

  lemma ReservedIsRight(store: ByteStore)
    requires Sound(store)
    ensures var r := ReservedOf(store);
            && r.Length() == store.asyncAddLength
            && (r.Nothing? <==> store.asyncAddLength == 0)
            && (store.asyncAddLength > 0 && store.Valid() ==> if store.file == null then r.InMemory? else r.InBuffer?)
            && (store.Stranded() ==> r.InBuffer?)
            && (ViewOf(store).Stranded() <==> store.Stranded())
  {
  }

  method PerformFill(store: ByteStore, bytes: seq<byte>)
    requires Sound(store) && Allowed(ViewOf(store), Fill(bytes))
    modifies store.Repr()
    ensures Sound(store) && store.Repr() == old(store.Repr())
    ensures ViewOf(store) == old(ViewOf(store)).(reserved := Filled(old(ViewOf(store)).reserved, bytes))
    ensures store.Pins(false)
  {
    store.FillAsync(bytes);
  }

  method PerformFinish(store: ByteStore, n: nat)
    requires Sound(store) && Allowed(ViewOf(store), Finish(n)) && ViewOf(store).Valid()
    modifies store.Repr()
    ensures Sound(store) && store.Repr() == old(store.Repr())
    ensures Finishes(old(ViewOf(store)), n, ViewOf(store))
    ensures store.Pins(AsksForAll(old(ViewOf(store)), Finish(n)))
  {
    var sound := store.AddDataDirectFinishAsync(n);
  }

  method PerformRead(store: ByteStore, offset: int, max: int) returns (ghost o: Outcome)
    requires Sound(store)
    modifies store`fileOp, store.file
    ensures Sound(store) && ViewOf(store) == old(ViewOf(store))
    ensures var (n, bytes) := StoreRead(ViewOf(store).Visible(), offset, max); o == Answered(n, bytes)
  {
    var n, out := store.Read(offset, max);
    o := Answered(n, out);
    ViewIsRight(store);
  }

  method PerformReadDirect(store: ByteStore, offset: int, max: int) returns (ghost o: Outcome)
    requires Sound(store)
    modifies store`fileOp, store.file, store.readBuffer
    ensures Sound(store) && ViewOf(store) == old(ViewOf(store))
    ensures Does(ViewOf(store), ReadDirect(offset, max), o, ViewOf(store))
  {
    var reader := new Reader();
    var total := store.ReadDirect(reader, offset, max);
    o := Taken(total, reader.taken, reader.done);
    ViewIsRight(store);
    if total >= 0 { PartOfPart(store.Visible(), offset, max, total); }
  }

  method PerformReserve(store: ByteStore, num: int)
    requires Sound(store)
    modifies store.Repr()
    ensures Sound(store) && fresh(store.Repr() - old(store.Repr()))
    ensures Reserves(old(ViewOf(store)), num, ViewOf(store))
    ensures store.Pins(AsksForAll(old(ViewOf(store)), Reserve(num)))
  {
    store.Reserve(num);
  }

  method PerformShow(store: ByteStore) returns (ghost o: Outcome)
    requires Sound(store)
    modifies store.Repr()
    ensures Sound(store) && store.Repr() == old(store.Repr())
    ensures Does(old(ViewOf(store)), ShowElement, o, ViewOf(store)) && store.Pins(false)
  {
    ViewIsRight(store);
    var element := store.GetDataElement();
    o := Shown(element);
  }

  method PerformFinalize(store: ByteStore)
    requires Sound(store)
    modifies store.Repr()
    ensures Sound(store) && store.Repr() == old(store.Repr())
    ensures Does(old(ViewOf(store)), Finalize, Done, ViewOf(store)) && store.Pins(false)
  {
    store.Finalize();
    if old(ViewOf(store)).reserved.InBuffer? { assert store.Visible()[store.length..] == []; }
  }

  /** A command that stores nothing. */
  method PerformQuietly(store: ByteStore, c: Command) returns (ghost o: Outcome)
    requires Sound(store) && Allowed(ViewOf(store), c)
    requires !c.Add? && !c.AddDirect? && !c.Finish? && !c.Reserve?
    modifies store.Repr(), store.disk
    ensures Sound(store) && store.Repr() == old(store.Repr()) && store.Pins(false)
    ensures Does(old(ViewOf(store)), c, o, ViewOf(store))
  {
    o := Done;
    match c {
      case Fill(bytes) => PerformFill(store, bytes);
      case Read(offset, max) => o := PerformRead(store, offset, max);
      case ReadDirect(offset, max) => o := PerformReadDirect(store, offset, max);
      case ShowElement => o := PerformShow(store);
      case Finalize => PerformFinalize(store);
      case DiskTurns(room, steady) => store.disk.room, store.disk.steady := room, steady;
    }
  }

  method Perform(store: ByteStore, c: Command) returns (ghost e: Step)
    requires Sound(store) && Allowed(ViewOf(store), c) && !Breaks(ViewOf(store), c)
    modifies store.Repr(), store.disk
    ensures Sound(store) && fresh(store.Repr() - old(store.Repr()))
    ensures e.command == c && e.before == old(ViewOf(store)) && e.after == ViewOf(store)
    ensures store.Pins(AsksForAll(e.before, c))
  {
    ghost var v, o := ViewOf(store), Done;
    match c {
      case Add(bytes) => PerformAdd(store, bytes);
      case AddDirect(script, max) => o := PerformDirect(store, script, max);
      case Finish(n) => PerformFinish(store, n);
      case Reserve(num) => PerformReserve(store, num);
      case _ => o := PerformQuietly(store, c);
    }
    e := Event(c, o, v, ViewOf(store));
  }

  /** Whether the command is allowed, and whether it breaks the store. */
  method Judge(store: ByteStore, c: Command) returns (allowed: bool, breaks: bool)
    requires Sound(store)
    ensures allowed <==> Allowed(ViewOf(store), c)
    ensures breaks <==> Breaks(ViewOf(store), c)
  {
    ViewIsRight(store);
    var n := store.asyncAddLength;
    var valid := if store.file == null then store.data.size == store.length + n
                 else |store.file.bytes| == store.length && n <= store.writeBuffer.size;
    var stranded := store.file == null && store.data.size == store.length && 0 < n <= store.writeBuffer.size;
    assert valid == store.Valid() && stranded == store.Stranded();
    match c {
      case Add(_) => allowed := !store.isFinalized && n == 0;
      case AddDirect(_, _) => allowed := !store.isFinalized && n == 0;
      case Fill(bytes) => allowed := (valid || stranded) && |bytes| <= n;
      case Finish(k) => allowed := !store.isFinalized && k <= n;
      case _ => allowed := true;
    }
    breaks := allowed && c.Finish? && !valid;
  }

  // ---------------------------------------------------------------------------------------------
  // Runs
  // ---------------------------------------------------------------------------------------------

  function Last(v: View, log: seq<Step>): View {
    if log == [] then v else log[|log| - 1].after
  }

  /** One event for each command, in order, from where the one before it led. */
  predicate IsTrace(v: View, commands: seq<Command>, log: seq<Step>) {
    |log| == |commands|
    && forall i :: 0 <= i < |log| ==>
         && log[i].command == commands[i] && log[i].before == Last(v, log[..i])
         && !Breaks(log[i].before, log[i].command)
  }

  lemma TraceGrows(v: View, commands: seq<Command>, log: seq<Step>, e: Step, next: nat, log': seq<Step>)
    requires |log| < |commands| && IsTrace(v, commands[..|log|], log)
    requires e.command == commands[|log|] && e.before == Last(v, log)
    requires !Breaks(e.before, e.command)
    requires next == |log| + 1 && log' == log + [e]
    ensures IsTrace(v, commands[..next], log') && Last(v, log') == e.after && |log'| == next
  {
    forall i | 0 <= i < next ensures log'[..i] == log[..i] {
    }
  }

  lemma AskedGrows(log: seq<Step>, e: Step, log': seq<Step>)
    requires log' == log + [e]
    ensures SomeAskForAll(log') <==> SomeAskForAll(log) || AsksForAll(e.before, e.command)
  {
    assert e in log';
    forall d ensures d in log' <==> d in log || d == e {
    }
  }

  predicate SomeAskForAll(log: seq<Step>) {
    exists e | e in log :: AsksForAll(e.before, e.command)
  }

  /** A run does all commands, or ends with a finish that fails an assertion or leaves a damaged store. */
  datatype End = Complete | Aborted | Damaged

  /**
    What a finish leaves of a store that is not valid: everything if an assertion fails.  In memory what
    is not kept of the add is cut off the end, whatever is there; in a file what is kept is put at the
    end, unless that fails.
   */
  predicate Broken(v: View, n: nat, visible: seq<byte>, length: nat)
    requires n <= v.reserved.Length()
  {
    if !v.CanFinish(n) then visible == v.Visible() && length == |v.stored|
    else if v.inFile then
      && v.Visible() <= visible && |visible| - |v.Visible()| == length - |v.stored|
      && (length == |v.stored| || length == |v.stored| + n)
    else visible == v.Visible()[..|v.Visible()| - (v.reserved.Length() - n)] && length == |v.stored| + n
  }

  /** The events are those of the commands, all or up to one that breaks the store; and this is left. */
  predicate Ran(v: View, commands: seq<Command>, log: seq<Step>, end: End, visible: seq<byte>, length: nat) {
    && |log| <= |commands| && IsTrace(v, commands[..|log|], log)
    && (end.Complete? <==> |log| == |commands|)
    && var w := Last(v, log);
    if end.Complete? then visible == w.Visible() && length == |w.stored|
    else
      && Breaks(w, commands[|log|])
      && (end.Aborted? <==> !w.CanFinish(commands[|log|].n)) && Broken(w, commands[|log|].n, visible, length)
  }

  method Run(store: ByteStore, commands: seq<Command>) returns (ghost log: seq<Step>, end: End)
    requires Sound(store)
    modifies store.Repr(), store.disk
    ensures store.Shape() && fresh(store.Repr() - old(store.Repr()))
    ensures Ran(old(ViewOf(store)), commands, log, end, store.Visible(), store.length)
    ensures end.Complete? ==> Sound(store) && ViewOf(store) == Last(old(ViewOf(store)), log)
    ensures !end.Damaged? ==> store.Core() && store.Pins(SomeAskForAll(log))
  {
    var done;
    log, done := RunUntil(store, commands);
    ViewIsRight(store);
    assert commands[..|commands|] == commands;
    end := Complete;
    if done < |commands| { end := FinishBroken(store, commands[done].n); }
  }

  /** All commands, or those before the first that breaks the store. */
  method RunUntil(store: ByteStore, commands: seq<Command>) returns (ghost log: seq<Step>, done: nat)
    requires Sound(store)
    modifies store.Repr(), store.disk
    ensures Sound(store) && fresh(store.Repr() - old(store.Repr()))
    ensures |log| == done <= |commands| && IsTrace(old(ViewOf(store)), commands[..done], log)
    ensures ViewOf(store) == Last(old(ViewOf(store)), log)
    ensures done < |commands| ==> Breaks(ViewOf(store), commands[done])
    ensures store.Pins(SomeAskForAll(log))
  {
    log, done := [], 0;
    ghost var v, asked := ViewOf(store), false;
    while done < |commands|
      invariant Sound(store) && fresh(store.Repr() - old(store.Repr()))
      invariant |log| == done <= |commands| && IsTrace(v, commands[..done], log) && ViewOf(store) == Last(v, log)
      invariant store.Pins(asked) && asked == SomeAskForAll(log)
    {
      ghost var e;
      var breaks;
      e, breaks := RunOne(store, commands[done]);
      if breaks { return; }
      var next := done + 1;
      ghost var log' := log + [e];
      TraceGrows(v, commands, log, e, next, log');
      AskedGrows(log, e, log');
      asked, log, done := asked || AsksForAll(e.before, e.command), log', next;
    }
  }

  /** One command, unless it is not allowed or would break the store. */
  method RunOne(store: ByteStore, c: Command) returns (ghost e: Step, breaks: bool)
    requires Sound(store)
    modifies store.Repr(), store.disk
    ensures Sound(store) && fresh(store.Repr() - old(store.Repr()))
    ensures breaks <==> Breaks(old(ViewOf(store)), c)
    ensures breaks ==> ViewOf(store) == old(ViewOf(store))
    ensures e.command == c && e.before == old(ViewOf(store)) && e.after == ViewOf(store)
    ensures store.Pins(AsksForAll(e.before, c))
  {
    ghost var v := ViewOf(store);
    var allowed;
    allowed, breaks := Judge(store, c);
    if allowed && !breaks {
      e := Perform(store, c);
    } else {
      SkippingDoes(v, c);
      e := Event(c, Skipped, v, v);
    }
  }

  lemma SkippingDoes(v: View, c: Command)
    requires !Allowed(v, c) || Breaks(v, c)
    ensures Does(v, c, Skipped, v) && !AsksForAll(v, c)
  {
  }

  method FinishBroken(store: ByteStore, n: nat) returns (end: End)
    requires Sound(store) && Breaks(ViewOf(store), Finish(n))
    modifies store.Repr()
    ensures store.Shape() && store.Repr() == old(store.Repr())
    ensures end == if old(ViewOf(store)).CanFinish(n) then Damaged else Aborted
    ensures Broken(old(ViewOf(store)), n, store.Visible(), store.length)
    ensures end.Aborted? ==> store.Core() && store.Pins(false)
  {
    ViewIsRight(store);
    var sound := store.AddDataDirectFinishAsync(n);
    end := if sound then Damaged else Aborted;
  }

  // ---------------------------------------------------------------------------------------------
  // What every run does to the stored bytes
  // ---------------------------------------------------------------------------------------------

  /** What the command was to add and has added. */
  function Added(e: Step): seq<byte> {
    if e.outcome.Skipped? then []
    else match e.command
      case Add(bytes) => if e.after.troubles > e.before.troubles then [] else bytes
      case AddDirect(_, _) => if e.outcome.Direct? then e.outcome.added else []
      case Finish(n) =>
        var r := e.before.reserved;
        if r.Nothing? || r.Astray? || |r.bytes| < n || e.after.troubles > e.before.troubles then [] else r.bytes[..n]
      case _ => []
  }

  function AllAdded(log: seq<Step>): seq<byte> {
    if log == [] then [] else AllAdded(log[..|log| - 1]) + Added(log[|log| - 1])
  }

  lemma TraceShrinks(v: View, commands: seq<Command>, log: seq<Step>)
    requires IsTrace(v, commands, log) && log != []
    ensures var k := |log| - 1;
            && IsTrace(v, commands[..k], log[..k]) && log[k].before == Last(v, log[..k])
            && log[k].command == commands[k] && !Breaks(log[k].before, log[k].command)
            && Does(log[k].before, log[k].command, log[k].outcome, log[k].after) && log[k].after == Last(v, log)
  {
    var k := |log| - 1;
    forall i | 0 <= i < k ensures log[..k][..i] == log[..i] {
    }
  }

  /** The store refines a plain string of bytes that is only ever appended to. */
  lemma {:induction false} RunsOnlyAdd(v: View, commands: seq<Command>, log: seq<Step>)
    requires IsTrace(v, commands, log)
    ensures Last(v, log).stored == v.stored + AllAdded(log)
  {
    if log != [] {
      var k := |log| - 1;
      TraceShrinks(v, commands, log);
      RunsOnlyAdd(v, commands[..k], log[..k]);
      Regroup(v.stored, AllAdded(log[..k]), Added(log[k]));
    }
  }

  /** With nothing pending, a read in the middle of a run answers for all that has been added up to then. */
  lemma ReadsSeeAllAdded(v: View, commands: seq<Command>, log: seq<Step>, i: nat)
    requires IsTrace(v, commands, log) && i < |log| && log[i].command.Read?
    ensures var s, seen := v.stored + AllAdded(log[..i]), log[i].before.Visible();
            && s <= seen && (log[i].before.reserved.Nothing? ==> seen == s)
            && var (n, bytes) := StoreRead(seen, commands[i].offset, commands[i].max);
               log[i].outcome == Answered(n, bytes)
  {
    TraceUpTo(v, commands, log, i);
    RunsOnlyAdd(v, commands[..i], log[..i]);
    var before := log[i].before;
    assert before == Last(v, log[..i]) && before.stored <= before.Visible();
    assert before.reserved.Nothing? ==> before.Visible() == before.stored;
  }

  lemma TraceUpTo(v: View, commands: seq<Command>, log: seq<Step>, i: nat)
    requires IsTrace(v, commands, log) && i <= |log|
    ensures IsTrace(v, commands[..i], log[..i])
  {
    forall j | 0 <= j < i ensures log[..i][..j] == log[..j] {
    }
  }

  /** Neither moves the store while an add is pending in memory nor makes the file system fail. */
  predicate Gentle(c: Command, limit: int) {
    (c.Reserve? ==> c.num <= limit) && (c.DiskTurns? ==> c.room && c.steady)
  }

  lemma {:induction false} GentleRunsStayValid(v: View, commands: seq<Command>, log: seq<Step>)
    requires IsTrace(v, commands, log) && v.room && v.steady && (v.Valid() || v.finalized)
    requires forall c | c in commands :: Gentle(c, v.limit)
    ensures var w := Last(v, log);
            && w.room && w.steady && w.limit == v.limit && w.troubles == v.troubles && (w.Valid() || w.finalized)
  {
    if log != [] {
      var k := |log| - 1;
      TraceShrinks(v, commands, log);
      GentleRunsStayValid(v, commands[..k], log[..k]);
      assert Gentle(commands[k], v.limit);
    }
  }

  /** On a steady disk with room, and if nothing is reserved beyond the limit, nothing fails or is lost. */
  lemma GentleRunsComplete(v: View, commands: seq<Command>, log: seq<Step>, end: End, visible: seq<byte>,
                           length: nat)
    requires Ran(v, commands, log, end, visible, length) && v.room && v.steady && (v.Valid() || v.finalized)
    requires forall c | c in commands :: Gentle(c, v.limit)
    ensures end.Complete? && Last(v, log).troubles == v.troubles
  {
    GentleRunsStayValid(v, commands[..|log|], log);
  }

  // ---------------------------------------------------------------------------------------------
  // Snapshots
  // ---------------------------------------------------------------------------------------------

  /** A store begins with the snapshot exactly if all that is read through the snapshot is the snapshot's. */
  lemma IntactMeansReadable(s: seq<byte>, seen: seq<byte>)
    ensures s <= seen <==> forall offset, max :: 0 <= offset < |s| && 0 <= max ==>
                             StoreRead(seen, offset, Clamp(|s|, offset, max)) == BlobRead(s, offset, max)
  {
    if s <= seen {
      forall offset: nat, max: nat | offset < |s|
        ensures StoreRead(seen, offset, Clamp(|s|, offset, max)) == BlobRead(s, offset, max)
      {
        PartOfPrefix(s, seen, offset, max);
      }
    } else {
      assert StoreRead(seen, 0, Clamp(|s|, 0, |s|)).1 == Part(seen, 0, |s|) != s;
      assert BlobRead(s, 0, |s|).1 == s;
    }
  }

  /** How many bytes are left after a finish on a store that is not valid. */
  function LeftOver(v: View, n: nat): int {
    if v.inFile || !v.CanFinish(n) then |v.Visible()| else |v.Visible()| - (v.reserved.Length() - n)
  }

  /** The run does all its commands, or what its last finish leaves is enough. */
  predicate Lasts(v: View, commands: seq<Command>, log: seq<Step>, end: End, length: nat)
    requires !end.Complete? ==> |log| < |commands| && commands[|log|].Finish?
  {
    end.Complete? || length <= LeftOver(Last(v, log), commands[|log|].n)
  }

  /** Exactly when a snapshot outlasts a run: if the run ends well, or if what its last finish left is enough. */
  lemma SnapshotsLast(v: View, commands: seq<Command>, log: seq<Step>, end: End, visible: seq<byte>, length: nat,
                      s: seq<byte>)
    requires Ran(v, commands, log, end, visible, length) && s <= v.stored
    ensures s <= visible <==> Lasts(v, commands, log, end, |s|)
  {
    RunsOnlyAdd(v, commands[..|log|], log);
    var w := Last(v, log);
    assert s <= v.stored <= w.stored <= w.Visible();
  }

  /** Reading through a blob is not seen. */
  method Look(blob: Blob, offset: int, max: int) returns (r: (int, seq<byte>))
    requires blob.Valid() && Sound(blob.store) && blob.Intact()
    modifies blob.store`fileOp, blob.store.file
    ensures Sound(blob.store) && ViewOf(blob.store) == old(ViewOf(blob.store))
    ensures r == BlobRead(blob.snapshot, offset, max)
  {
    var n, out := blob.Read(offset, max);
    r := (n, out);
  }

  /** What a run does to a snapshot. */
  method RunUnder(blob: Blob, commands: seq<Command>, ghost v: View) returns (ghost log: seq<Step>, end: End)
    requires blob.Valid() && Sound(blob.store) && blob.snapshot <= blob.store.Model() && v == ViewOf(blob.store)
    modifies blob.store.Repr(), blob.store.disk
    ensures blob.Valid() && fresh(blob.store.Repr() - old(blob.store.Repr()))
    ensures Ran(v, commands, log, end, blob.store.Visible(), blob.store.length)
    ensures blob.Intact() <==> Lasts(v, commands, log, end, |blob.snapshot|)
  {
    var store := blob.store;
    log, end := Run(store, commands);
    SnapshotsLast(v, commands, log, end, store.Visible(), store.length, blob.snapshot);
  }

  method LookAgain(blob: Blob, offset: int, max: int) returns (r: (int, seq<byte>))
    requires blob.Valid()
    modifies blob.store`fileOp, blob.store.file
    ensures blob.Valid() && blob.store.Visible() == old(blob.store.Visible())
    ensures blob.Intact() ==> r == BlobRead(blob.snapshot, offset, max)
  {
    var n, out := blob.Read(offset, max);
    r := (n, out);
  }

  /** A blob made at any moment, also during an asynchronous add, and a run after it. */
  method SnapshotIsStable(store: ByteStore, commands: seq<Command>, offset: int, max: int)
    returns (blob: Blob, ghost log: seq<Step>, end: End, first: (int, seq<byte>), second: (int, seq<byte>))
    requires Sound(store)
    modifies store.Repr(), store.disk
    ensures blob.Valid() && blob.store == store && blob.snapshot == old(store.Model())
    ensures Ran(old(ViewOf(store)), commands, log, end, store.Visible(), store.length)
    ensures blob.Intact() <==> Lasts(old(ViewOf(store)), commands, log, end, |blob.snapshot|)
    ensures first == BlobRead(blob.snapshot, offset, max)
    ensures blob.Intact() ==> second == first
  {
    ghost var v := ViewOf(store);
    blob := new Blob(store);
    first := Look(blob, offset, max);
    log, end := RunUnder(blob, commands, v);
    second := LookAgain(blob, offset, max);
  }

  /** Whatever the state of the store, a finish keeps a snapshot exactly if enough is left. */
  method FinishUnder(blob: Blob, n: nat) returns (sound: bool)
    requires blob.Valid() && blob.Intact() && blob.store.Core()
    requires !blob.store.isFinalized && n <= blob.store.asyncAddLength
    modifies blob.store.Repr()
    ensures blob.Valid() && sound == old(blob.store.CanFinish(n))
    ensures blob.Intact() <==> !sound || blob.store.file != null
                               || blob.length <= old(|blob.store.Visible()| - (blob.store.asyncAddLength - n))
  {
    sound := blob.store.AddDataDirectFinishAsync(n);
  }

  // ---------------------------------------------------------------------------------------------
  // Elements
  // ---------------------------------------------------------------------------------------------

  /** The memory still holds what pointers into it are to show. */
  lemma PinnedBytes(store: ByteStore, k: nat, stored: seq<byte>)
    requires store.Core() && store.preserveData && k <= store.Pinned()
    requires k <= |stored| && stored <= store.Model()
    ensures k <= |store.data.buffer| && store.data.buffer[..k] == stored[..k]
  {
    var b, all := store.data.buffer, store.data.size;
    assert b[..k] == b[..all][..k];
    assert stored[..k] == store.Model()[..k] == store.Visible()[..k];
  }

  /** What a run does to the memory that has been shown. */
  method RunShown(store: ByteStore, commands: seq<Command>) returns (ghost log: seq<Step>, end: End)
    requires Sound(store) && store.preserveData
    modifies store.Repr(), store.disk
    ensures store.Shape() && Ran(old(ViewOf(store)), commands, log, end, store.Visible(), store.length)
    ensures !end.Damaged? ==>
              && old(store.Pinned()) <= |store.data.buffer|
              && store.data.buffer[..old(store.Pinned())] == old(store.Model())[..old(store.Pinned())]
              && (store.data.reallocs == old(store.data.reallocs) <==> !SomeAskForAll(log))
  {
    ghost var v, k := ViewOf(store), store.Pinned();
    log, end := Run(store, commands);
    if !end.Damaged? {
      StaysBelow(v, commands, log, end, store.Visible(), store.length);
      PinnedBytes(store, k, v.stored);
    }
  }

  /**
    An element is shown, and a run after it that does not damage the store: the memory shown holds the
    stored bytes all the time, and it is never reallocated exactly if the run never asks for all of it.
   */
  method ElementStays(store: ByteStore, commands: seq<Command>)
    returns (element: Option<seq<byte>>, ghost block: nat, ghost log: seq<Step>, end: End)
    requires Sound(store) && store.file == null && !store.isFinalized
    modifies store.Repr(), store.disk
    ensures element == Some(old(store.Visible())) && store.Shape()
    ensures Ran(old(ViewOf(store)), commands, log, end, store.Visible(), store.length)
    ensures !end.Damaged? ==>
              && old(store.length) <= |store.data.buffer|
              && store.data.buffer[..old(store.length)] == old(store.Model())
              && (store.data.reallocs == block <==> !SomeAskForAll(log))
  {
    ghost var v, m := ViewOf(store), store.Model();
    element := store.GetDataElement();
    block := store.data.reallocs;
    assert ViewOf(store) == v && store.Pinned() == |m|;
    log, end := RunShown(store, commands);
  }

  /** What was stored before a run that did no damage is the beginning of what is stored after it. */
  lemma StaysBelow(v: View, commands: seq<Command>, log: seq<Step>, end: End, visible: seq<byte>, length: nat)
    requires Ran(v, commands, log, end, visible, length) && !end.Damaged?
    ensures |v.stored| <= length <= |visible| && v.stored <= visible[..length]
  {
    RunsOnlyAdd(v, commands[..|log|], log);
    var w := Last(v, log);
    assert w.stored <= w.Visible();
  }

  // ---------------------------------------------------------------------------------------------
  // Stores that break
  // ---------------------------------------------------------------------------------------------

  /** A store of the smallest size with one byte in it, and a blob of that. */
  method StoreOneByte(room: bool) returns (store: ByteStore, blob: Blob)
    ensures fresh(store.Repr()) && fresh(store.disk) && store.maxBufferSize == INITIAL_CAPACITY
    ensures store.Valid() && !store.isFinalized && store.asyncAddLength == 0 && store.file == null
    ensures store.Model() == store.Visible() == [7] && store.disk.room == room && store.disk.steady
    ensures store.writeBuffer.size == 0
    ensures blob.Valid() && blob.store == store && blob.snapshot == [7]
  {
    var disk := new Disk(room, true);
    store := new ByteStore(INITIAL_CAPACITY, disk);
    var ok := store.AddData([7]);
    assert store.Model() == [7];
    blob := new Blob(store);
  }

  /** A writer goes asynchronous at once. */
  method GoAsync(store: ByteStore, max: nat)
    requires store.Valid() && !store.isFinalized && store.asyncAddLength == 0 && store.file == null
    requires 0 < max <= store.maxBufferSize
    modifies store.Repr()
    ensures store.Core() && store.Model() == old(store.Model()) && store.asyncAddLength == max
    ensures store.isFinalized == old(store.isFinalized)
    ensures if old(store.Fits(max)) then store.Valid() && store.file == null
            else if store.disk.room && store.disk.steady then store.Valid() && store.file != null
            else store.Stranded() || store.disk.room
    ensures old(store.Fits(max)) ==> store.writeBuffer.size == old(store.writeBuffer.size)
    ensures fresh(store.Repr() - old(store.Repr()))
  {
    var writer := new Writer([Async]);
    assert Handed([Async], max, store.maxBufferSize) == ([], WentAsync);
    var total;
    ghost var added, lost;
    total, added, lost := store.AddDataDirect(writer, max);
    assert lost == [];
  }

  /** One byte is stored, the disk is full, and a writer goes asynchronous for more than fits in memory. */
  method Strand() returns (store: ByteStore, blob: Blob)
    ensures fresh(store.Repr()) && store.maxBufferSize == INITIAL_CAPACITY
    ensures store.Stranded() && !store.Valid() && !store.isFinalized
    ensures store.Model() == [7] && store.Visible() == [7] && store.asyncAddLength == INITIAL_CAPACITY
    ensures blob.Valid() && blob.store == store && blob.snapshot == [7]
  {
    store, blob := StoreOneByte(false);
    GoAsync(store, INITIAL_CAPACITY);
    assert store.Visible() == store.Model();
  }

  /** Finishing the add with all bytes but one makes the snapshot lose its byte. */
  method SnapshotsCanLoseBytes() returns (store: ByteStore, blob: Blob, first: seq<byte>, second: seq<byte>)
    ensures blob.Valid() && blob.store == store && blob.snapshot == [7] && !blob.Intact()
    ensures store.Visible() == [] && store.length == INITIAL_CAPACITY && store.asyncAddLength == 0 && !store.Core()
    ensures first == [7] && second == []
  {
    store, blob := Strand();
    var n;
    n, first := blob.Read(0, 1);
    var sound := store.AddDataDirectFinishAsync(INITIAL_CAPACITY - 1);
    n, second := blob.Read(0, 1);
  }

  /** Finishing it with no bytes fails the assertion that a size is not negative. */
  method FinishingCanFail() returns (store: ByteStore, sound: bool)
    ensures store.Stranded() && !store.isFinalized && !store.CanFinish(0) && !sound
    ensures store.Model() == [7] && store.Visible() == [7] && store.asyncAddLength == INITIAL_CAPACITY
  {
    var blob;
    store, blob := Strand();
    sound := store.AddDataDirectFinishAsync(0);
  }

  /** A store that is filled up to its limit asks for its memory again, under the pointers of an element. */
  method ElementsCanMove() returns (store: ByteStore, ghost block: nat, element: Option<seq<byte>>)
    ensures store.Valid() && store.file == null && store.preserveData && element == Some([7])
    ensures store.length == store.maxBufferSize && block < store.data.reallocs
  {
    var blob;
    store, blob := StoreOneByte(true);
    element := store.GetDataElement();
    block := store.data.reallocs;
    var ok := store.AddData(seq(INITIAL_CAPACITY - 1, _ => 7));
  }

  /** One byte is stored, a writer goes asynchronous for three in memory, and more is reserved than fits there. */
  method Misplace() returns (store: ByteStore, blob: Blob)
    ensures store.Core() && store.file != null && !store.Valid() && !store.isFinalized
    ensures store.Model() == [7] && |store.Visible()| == 4 && store.asyncAddLength == 3
    ensures forall n :: !store.CanFinish(n)
    ensures blob.Valid() && blob.store == store && blob.snapshot == [7] && blob.Intact()
  {
    store, blob := StoreOneByte(true);
    GoAsync(store, 3);
    assert store.Visible() == store.Model() + store.Pending();
    store.Reserve(INITIAL_CAPACITY + 1);
  }
}
