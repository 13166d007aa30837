/**
  The byte store: an append-only string of bytes held in memory up to a limit and in a temporary
  file beyond it, with direct and asynchronous writers, readers and snapshots.

  What the file system, the writers and the readers do is left open: the disk may have room for a
  temporary file or not, it may be steady or let writes come up short, and a writer follows any script of
  bytes handed over and of going asynchronous.
 */
module ByteStores {
  import opened Basics
  import opened MemoryBuffers

  function Overwrite(s: seq<byte>, p: nat, d: seq<byte>): seq<byte>
    requires p <= |s|
  {
    s[..p] + d + (if p + |d| < |s| then s[p + |d|..] else [])
  }

  /** At most max bytes of s from the offset. */
  function Part(s: seq<byte>, offset: nat, max: nat): seq<byte> {
    if |s| <= offset then []
    else if |s| - offset < max then s[offset..]
    else s[offset..offset + max]
  }

  /** Whether temporary files can be created and writes are complete is up to the world outside. */
  class Disk {
    var room: bool
    var steady: bool

    constructor (room: bool, steady: bool)
      ensures this.room == room && this.steady == steady
    {
      this.room, this.steady := room, steady;
    }
  }

  class File {
    const disk: Disk
    var bytes: seq<byte>
    var pos: nat

    constructor (disk: Disk)
      ensures this.disk == disk && bytes == [] && pos == 0
    {
      this.disk, bytes, pos := disk, [], 0;
    }

    /** On a disk that is not steady any number of the bytes may get written; only a complete write reports it. */
    method Write(data: seq<byte>) returns (n: int, ghost w: nat)
      requires pos <= |bytes|
      modifies this
      ensures w <= |data| && (n == |data| ==> w == |data|) && (disk.steady ==> n == |data|)
      ensures bytes == Overwrite(old(bytes), old(pos), data[..w]) && pos == old(pos) + w
    {
      var k: nat, error: bool := *, *;
      if disk.steady { k, error := |data|, false; }
      k := Min(k, |data|);
      bytes, pos := Overwrite(bytes, pos, data[..k]), pos + k;
      return if error then -1 else k, k;
    }

    method Seek(offset: nat)
      modifies this`pos
      ensures pos == offset
    {
      pos := offset;
    }

    method Truncate(length: nat)
      requires length <= |bytes|
      modifies this`bytes
      ensures bytes == old(bytes)[..length]
    {
      bytes := bytes[..length];
    }

    method Read(max: nat) returns (out: seq<byte>)
      modifies this`pos
      ensures out == Part(bytes, old(pos), max) && pos == old(pos) + |out|
    {
      out := Part(bytes, pos, max);
      pos := pos + |out|;
    }
  }

  method CreateNewTempFile(disk: Disk) returns (f: File?)
    ensures f != null <==> disk.room
    ensures f != null ==> fresh(f) && f.disk == disk && f.bytes == [] && f.pos == 0
  {
    f := null;
    if disk.room { f := new File(disk); }
  }

  datatype Response = Wrote(bytes: seq<byte>) | Async

  datatype Turn = Gave | Finished | WentAsync

  /** What a writer with that script answers when it is offered a buffer. */
  function Answer(script: seq<Response>, max: nat): (r: Response)
    ensures r.Wrote? ==> |r.bytes| <= max
  {
    if script == [] then Wrote([])
    else if script[0].Async? then Async
    else Wrote(script[0].bytes[..Min(|script[0].bytes|, max)])
  }

  /**
    All a writer with that script hands over when it is offered one buffer after the other, none larger
    than the limit, until it has filled so much or stops, and what it did last.
   */
  function Handed(script: seq<Response>, left: nat, limit: nat): (r: (seq<byte>, Turn))
    ensures |r.0| <= left && (r.1 == Gave <==> |r.0| == left)
    decreases left
  {
    if left == 0 then ([], Gave)
    else
      var r := Answer(script, Min(left, limit));
      if r.Async? then ([], WentAsync)
      else if r.bytes == [] then ([], Finished)
      else var (bytes, turn) := Handed(script[1..], left - |r.bytes|, limit); (r.bytes + bytes, turn)
  }

  /** A source of bytes; `given` is all it has handed over, and `turn` what it did last. */
  class Writer {
    var script: seq<Response>
    ghost var given: seq<byte>
    ghost var turn: Turn

    constructor (script: seq<Response>)
      ensures this.script == script && given == [] && turn == Gave
    {
      this.script, given, turn := script, [], Gave;
    }

    method WriteToBuffer(max: nat) returns (r: Response)
      modifies this
      ensures r == Answer(old(script), max) && script == if old(script) == [] then [] else old(script)[1..]
      ensures given == if r.Wrote? then old(given) + r.bytes else old(given)
      ensures turn == if r.Async? then WentAsync else if r == Wrote([]) then Finished else Gave
    {
      r := Wrote([]);
      if script != [] {
        r, script := script[0], script[1..];
        if r.Wrote? { r := Wrote(r.bytes[..Min(|r.bytes|, max)]); }
      }
      if r.Wrote? { given := given + r.bytes; }
      turn := if r.Async? then WentAsync else if r == Wrote([]) then Finished else Gave;
    }
  }

  /** A consumer of bytes; `taken` is all it has taken, and it is done once it has taken nothing. */
  class Reader {
    ghost var taken: seq<byte>
    ghost var done: bool

    constructor () ensures taken == [] && !done { taken, done := [], false; }

    method ReadFromBuffer(buffer: seq<byte>) returns (n: nat)
      requires buffer != []
      modifies this
      ensures n <= |buffer| && taken == old(taken) + buffer[..n]
      ensures n == 0 ==> done
      ensures n > 0 ==> done == old(done)
    {
      var k: int := *;
      n := if 0 <= k <= |buffer| then k else 0;
      taken := taken + buffer[..n];
      if n == 0 { done := true; }
    }
  }

  datatype Mode = READ | WRITE

  /** `troubles` counts how often the file system has let the store down. */
  class ByteStore {
    ghost var troubles: nat
    const disk: Disk
    const maxBufferSize: int
    const data: MemoryBuffer
    const readBuffer: MemoryBuffer
    const writeBuffer: MemoryBuffer
    var file: File?
    var fileOp: Mode
    var isFinalized: bool
    var preserveData: bool
    var asyncAddLength: nat
    var length: nat

    ghost function Repr(): set<object>
      reads this
    {
      {this, data, readBuffer, writeBuffer} + (if file == null then {} else {file})
    }

    /** Each buffer's capacity is zero or sixteen times a power of two, and at most the maximum. */
    ghost predicate BuffersOk()
      reads data, readBuffer, writeBuffer
    {
      && IsBlock(maxBufferSize)
      && data != readBuffer && data != writeBuffer && readBuffer != writeBuffer
      && data.Valid() && data.capacity <= maxBufferSize
      && readBuffer.Valid() && readBuffer.capacity <= maxBufferSize
      && writeBuffer.Valid() && writeBuffer.capacity <= maxBufferSize
    }

    /** What holds of the buffers and the file in every state. */
    ghost predicate Shape()
      reads this, data, readBuffer, writeBuffer, file
    {
      && BuffersOk()
      && (file == null ==> fileOp == WRITE && (preserveData ==> data.capacity == maxBufferSize))
      && (file != null ==>
            && file.disk == disk && (fileOp == WRITE ==> file.pos == |file.bytes|)
            && (if preserveData then data.Contents() <= file.bytes else data.size == 0))
    }

    /** What a reader of the store can see. */
    ghost function Visible(): seq<byte>
      reads this, data, readBuffer, writeBuffer, file
      requires Shape()
    {
      if file == null then data.Contents() else file.bytes
    }

    /** The store holds as many bytes as it claims. */
    ghost predicate Core()
      reads this, data, readBuffer, writeBuffer, file
    {
      && Shape() && length <= |Visible()|
      && (length == |Visible()| && !isFinalized ==> asyncAddLength <= writeBuffer.size)
    }

    /** What an asynchronous writer has reserved in memory lies beyond the stored bytes, and nothing else does. */
    ghost predicate Valid()
      reads this, data, readBuffer, writeBuffer, file
    {
      && Core()
      && (file == null ==> data.size == length + asyncAddLength)
      && (file != null ==> |file.bytes| == length && asyncAddLength <= writeBuffer.size)
    }

    /** An asynchronous writer was promised a file that could not be made. */
    ghost predicate Stranded()
      reads this, data, readBuffer, writeBuffer, file
    {
      Core() && file == null && data.size == length && 0 < asyncAddLength <= writeBuffer.size
    }

    /** The stored bytes. */
    ghost function Model(): (m: seq<byte>)
      reads this, data, readBuffer, writeBuffer, file
      requires Core()
      ensures |m| == length && m <= Visible()
      ensures Valid() && asyncAddLength == 0 ==> m == Visible()
    {
      Visible()[..length]
    }

    /** What an asynchronous writer has left where it was told to leave its bytes. */
    ghost function Pending(): (m: seq<byte>)
      reads this, data, readBuffer, writeBuffer, file
      requires Valid() || Stranded()
      ensures |m| == asyncAddLength
      ensures Visible() == if Valid() && file == null then Model() + m else Model()
    {
      if Valid() && file == null then data.buffer[length..length + asyncAddLength]
      else writeBuffer.buffer[..asyncAddLength]
    }

    /** How many of the stored bytes pointers from GetDataElement still show. */
    ghost function Pinned(): nat
      reads this, data
    {
      if preserveData then Min(length, data.size) else 0
    }

    /** Those pointers go on showing what they show, and nothing was reallocated unless that was asked for. */
    twostate predicate Pins(asked: bool)
      reads this, data
    {
      old(preserveData) ==>
        && preserveData && old(Pinned()) <= Pinned() && old(data.reallocs) <= data.reallocs
        && (data.reallocs == old(data.reallocs) <==> !asked)
    }

    /** Writing to the file cannot fail. */
    ghost predicate Calm()
      reads this, disk
    {
      disk.steady && (file != null || disk.room)
    }

    /** No assertion fails if n bytes of the pending add are kept. */
    ghost predicate CanFinish(n: nat)
      reads this, data, writeBuffer
    {
      || asyncAddLength == 0
      || if file == null then asyncAddLength - n <= data.size else 0 < writeBuffer.size && n <= writeBuffer.size
    }

    constructor (max: int, disk: Disk)
      requires IsBlock(max)
      ensures Valid() && Model() == [] && file == null && asyncAddLength == 0 && !isFinalized && !preserveData
      ensures maxBufferSize == max && this.disk == disk && fresh(Repr()) && writeBuffer.size == 0
    {
      this.disk := disk;
      maxBufferSize := max;
      data := new MemoryBuffer();
      readBuffer := new MemoryBuffer();
      writeBuffer := new MemoryBuffer();
      file, fileOp, isFinalized, preserveData, asyncAddLength, length := null, WRITE, false, false, 0, 0;
      troubles := 0;
    }

    // -------------------------------------------------------------------------------------------
    // Adding
    // -------------------------------------------------------------------------------------------

    /** The bytes are stored, or everything stays as it is. */
    method AddData(bytes: seq<byte>) returns (ok: bool)
      requires Valid() && !isFinalized && asyncAddLength == 0
      modifies this`file, this`fileOp, this`length, this`troubles, data, file
      ensures Valid() && (file != old(file) ==> fresh(file))
      ensures Model() == if ok then old(Model()) + bytes else old(Model())
      ensures troubles == if ok then old(troubles) else old(troubles) + 1
      ensures old(Calm()) ==> ok
      ensures Moves(old(file))
      ensures if bytes == [] || (old(file) == null && |old(Model())| + |bytes| <= maxBufferSize)
              then ok && file == old(file) else ok ==> file != null
      ensures Pins(bytes != [] && old(file) == null && old(length) + |bytes| == maxBufferSize)
    {
      if bytes == [] { return true; }
      if file == null && |bytes| + data.size <= maxBufferSize {
        data.Append(bytes);
        length := length + |bytes|;
        return true;
      }
      ok := AddDataToFile(bytes);
    }

    /** A store that has a file keeps it, and a new one needs room. */
    ghost predicate Moves(was: File?)
      reads this, disk
    {
      if was != null then file == was else file != null ==> disk.room
    }

    /** Moves all that is in memory to a new file. */
    method Spill() returns (ok: bool)
      requires Shape() && file == null
      modifies this`file, this`troubles, data
      ensures Shape() && ok == (file != null) && Visible() == old(Visible())
      ensures troubles == if ok then old(troubles) else old(troubles) + 1
      ensures ok ==> fresh(file) && disk.room
      ensures (!ok ==> unchanged(data) && !old(Calm())) && (preserveData ==> unchanged(data))
      ensures data.reallocs == old(data.reallocs)
    {
      var f := CreateNewTempFile(disk);
      if f == null {
        troubles := troubles + 1;
        return false;
      }
      if data.size != 0 {
        var n, w := f.Write(data.buffer[..data.size]);
        if n != data.size {
          troubles := troubles + 1;
          return false;
        }
      }
      file := f;
      if !preserveData { data.Clear(); }
      return true;
    }

    /** The bytes are put after all that is in the file, and counted, or nothing is. */
    method AddDataToFile(bytes: seq<byte>) returns (ok: bool)
      requires Shape()
      modifies this`file, this`fileOp, this`length, this`troubles, data, file
      ensures Shape() && (file != old(file) ==> fresh(file))
      ensures Visible() == if ok then old(Visible()) + bytes else old(Visible())
      ensures length == if ok then old(length) + |bytes| else old(length)
      ensures ok ==> file != null
      ensures troubles == if ok then old(troubles) else old(troubles) + 1
      ensures old(Calm()) || (bytes == [] && old(file) != null) ==> ok
      ensures Moves(old(file))
      ensures bytes == [] && !ok ==> file == null
      ensures file == old(file) || preserveData ==> unchanged(data)
      ensures data.reallocs == old(data.reallocs)
    {
      if file == null {
        var spilled := Spill();
        if !spilled { return false; }
      }
      if bytes != [] { ok := AppendToFile(bytes); } else { ok := true; }
    }

    /** A write that comes up short is taken back. */
    method AppendToFile(bytes: seq<byte>) returns (ok: bool)
      requires Shape() && file != null
      modifies this`fileOp, this`length, this`troubles, file
      ensures Shape() && file.bytes == (if ok then old(file.bytes) + bytes else old(file.bytes)) && fileOp == WRITE
      ensures length == if ok then old(length) + |bytes| else old(length)
      ensures troubles == if ok then old(troubles) else old(troubles) + 1
      ensures disk.steady ==> ok
    {
      if fileOp == READ {
        file.Seek(|file.bytes|);
        fileOp := WRITE;
      }
      var pos := file.pos;
      var n, w := file.Write(bytes);
      ok := n == |bytes|;
      if ok {
        length := length + |bytes|;
      } else {
        troubles := troubles + 1;
        file.Truncate(pos);
        file.Seek(|file.bytes|);
        assert file.bytes == old(file.bytes);
      }
    }

    /** A direct add of so many bytes goes to memory. */
    ghost predicate Fits(max: int)
      reads this
    {
      file == null && length + max <= maxBufferSize
    }

    /**
      All the writer hands over is stored, in order, but for a chunk that could not be written: it is lost,
      and the adding stops.  What is pending afterwards is as much as a writer going asynchronous was
      last offered, and the store is stranded if that was to go to a file that could not be made.
     */
    method AddDataDirect(writer: Writer, maxLength: int)
      returns (total: nat, ghost added: seq<byte>, ghost lost: seq<byte>)
      requires Valid() && !isFinalized && asyncAddLength == 0 && writer.turn == Gave
      modifies this`file, this`fileOp, this`length, this`troubles, this`asyncAddLength, data, writeBuffer, file, writer
      ensures if Stranded() then file == null && !old(Fits(maxLength)) else Valid()
      ensures file != old(file) ==> fresh(file)
      ensures Model() == old(Model()) + added && |added| == total
      ensures writer.given == old(writer.given) + (added + lost)
      ensures maxLength < 0 ==> unchanged(old(Repr())) && unchanged(writer) && added == lost == []
      ensures maxLength >= 0 ==>
                && total <= maxLength && AddingStopped(writer, maxLength - total)
                && AddingDone(writer, Handed(old(writer.script), maxLength, maxBufferSize), added, lost)
      ensures troubles == if lost != [] || Stranded() then old(troubles) + 1 else old(troubles)
      ensures old(Calm() || Fits(maxLength)) ==> troubles == old(troubles)
      ensures Moves(old(file))
      ensures old(Fits(maxLength)) ==> file == old(file) && writeBuffer.size == old(writeBuffer.size)
      ensures !old(Fits(maxLength)) && maxLength >= 0 ==>
                && writeBuffer.size == Max(old(writeBuffer.size), Min(maxLength, maxBufferSize))
                && (writer.turn == WentAsync && file == null ==> Stranded()) && (added != [] ==> file != null)
      ensures Pins(maxLength >= 0 && old(file) == null && old(length) + maxLength == maxBufferSize)
    {
      if maxLength < 0 { return 0, [], []; }
      if file == null && maxLength + data.size <= maxBufferSize {
        total, added := AddDirectToMemory(writer, maxLength);
        lost := [];
      } else {
        total, added, lost := AddDirectToFile(writer, maxLength);
      }
    }

    /** Something is pending exactly if the writer went asynchronous: as much as it was last offered. */
    ghost predicate AddingStopped(writer: Writer, left: nat)
      reads this, writer
    {
      asyncAddLength == if writer.turn == WentAsync then Min(left, maxBufferSize) else 0
    }

    /** The writer has handed over all that its script says, or what was lost is the last it handed over. */
    ghost predicate AddingDone(writer: Writer, all: (seq<byte>, Turn), added: seq<byte>, lost: seq<byte>)
      reads writer
    {
      if lost == [] then (added, writer.turn) == all else writer.turn == Gave && added + lost <= all.0
    }

    method TakeIntoMemory(offset: nat, bytes: seq<byte>)
      requires Core() && file == null && asyncAddLength == 0 && offset == length && length + |bytes| <= data.size
      modifies this`length, data`buffer
      ensures Core() && Model() == old(Model()) + bytes
    {
      data.Store(offset, bytes);
      length := length + |bytes|;
    }

    method LeaveInMemory(left: nat)
      requires Core() && file == null && data.size == length + left
      modifies this`asyncAddLength
      ensures Valid() && asyncAddLength == left && Model() == old(Model())
    {
      asyncAddLength := left;
    }

    method TrimMemory(offset: nat)
      requires Core() && file == null && asyncAddLength == 0 && offset == length
      modifies data
      ensures Valid() && Model() == old(Model()) && old(data.reallocs) <= data.reallocs
      ensures length < old(data.capacity) ==> data.reallocs == old(data.reallocs)
    {
      data.Resize(offset);
    }

    method LeaveForFile(bufferSize: nat)
      requires Valid() && asyncAddLength == 0 && 0 < bufferSize <= writeBuffer.size
      modifies this`file, this`fileOp, this`length, this`troubles, this`asyncAddLength, data, file
      ensures (if file == null then Stranded() else Valid()) && asyncAddLength == bufferSize && Model() == old(Model())
      ensures Stranded() <==> file == null
      ensures troubles == if file == null then old(troubles) + 1 else old(troubles)
      ensures Moves(old(file)) && (old(Calm()) ==> file != null)
      ensures file != old(file) ==> fresh(file)
      ensures Pins(false)
    {
      var spilled := AddDataToFile([]);
      asyncAddLength := bufferSize;
    }

    method SizeWriteBuffer(bufferSize: nat)
      requires Valid() && asyncAddLength == 0 && bufferSize <= maxBufferSize
      modifies writeBuffer
      ensures Valid() && Model() == old(Model())
      ensures writeBuffer.size == Max(old(writeBuffer.size), bufferSize)
    {
      if writeBuffer.size < bufferSize { writeBuffer.Resize(bufferSize); }
    }

    method TakeIntoFile(bytes: seq<byte>) returns (ok: bool)
      requires Valid() && asyncAddLength == 0 && |bytes| <= writeBuffer.size
      modifies this`file, this`fileOp, this`length, this`troubles, data, writeBuffer, file
      ensures Valid() && !Stranded() && asyncAddLength == 0 && writeBuffer.size == old(writeBuffer.size)
      ensures file != old(file) ==> fresh(file)
      ensures Model() == if ok then old(Model()) + bytes else old(Model())
      ensures troubles == if ok then old(troubles) else old(troubles) + 1
      ensures Moves(old(file)) && (ok ==> file != null) && (old(Calm()) ==> ok)
      ensures Pins(false)
    {
      writeBuffer.Store(0, bytes);
      assert writeBuffer.buffer[..|bytes|] == bytes;
      ok := AddDataToFile(writeBuffer.buffer[..|bytes|]);
    }

    /**
      In the middle of a direct add: `added` has been stored after `stored` and taken from the writer
      after `given`, and with what it would still hand over that is all there is.
     */
    ghost predicate Adding(writer: Writer, stored: seq<byte>, given: seq<byte>, all: (seq<byte>, Turn),
                           added: seq<byte>, left: nat)
      reads this, data, readBuffer, writeBuffer, file, writer
      requires Core()
    {
      && writer.turn == Gave
      && Continues(Model(), writer.given, writer.script, stored, given, all, added, left, maxBufferSize)
    }

    lemma Starts(writer: Writer, left: nat) returns (all: (seq<byte>, Turn))
      requires Core() && writer.turn == Gave
      ensures all == Handed(writer.script, left, maxBufferSize)
      ensures Adding(writer, Model(), writer.given, all, [], left)
    {
      all := Handed(writer.script, left, maxBufferSize);
      assert [] + all.0 == all.0;
    }

    lemma Stops(writer: Writer, stored: seq<byte>, given: seq<byte>, all: (seq<byte>, Turn), added: seq<byte>)
      requires Core() && Adding(writer, stored, given, all, added, 0)
      ensures all == (added, Gave)
    {
      assert added + [] == added;
    }

    /** One turn of the writer in memory: n bytes are stored, or the adding stops. */
    method ChunkIntoMemory(writer: Writer, left: nat, offset: nat, ghost stored: seq<byte>, ghost given: seq<byte>,
                           ghost all: (seq<byte>, Turn), ghost added: seq<byte>)
      returns (n: nat, rest: nat, ghost more: seq<byte>)
      requires Core() && file == null && asyncAddLength == 0 && 0 < left
      requires offset == length && data.size == length + left && Adding(writer, stored, given, all, added, left)
      modifies this`length, this`asyncAddLength, data`buffer, writer
      ensures Core() && n <= left && rest == left - n && length == offset + n && |more| == |added| + n
      ensures n > 0 ==> asyncAddLength == 0 && Adding(writer, stored, given, all, more, rest)
      ensures n == 0 ==> && Model() == stored + added && writer.given == given + added && more == added
                         && asyncAddLength == (if writer.turn == WentAsync then left else 0)
                         && all == (added, writer.turn)
    {
      ghost var script, model, given' := writer.script, Model(), writer.given;
      var r := writer.WriteToBuffer(left);
      n, rest, more := 0, left, added;
      if r.Wrote? { n, rest, more := |r.bytes|, left - |r.bytes|, added + r.bytes; }
      HandsOver(model, given', script, stored, given, all, added, left, maxBufferSize, r, more, rest);
      if r.Async? {
        LeaveInMemory(left);
      } else if r.bytes != [] {
        TakeIntoMemory(offset, r.bytes);
      }
    }

    method AddDirectToMemory(writer: Writer, maxLength: nat) returns (total: nat, ghost added: seq<byte>)
      requires Valid() && asyncAddLength == 0 && writer.turn == Gave
      requires file == null && maxLength + data.size <= maxBufferSize
      modifies this`length, this`asyncAddLength, data, writer
      ensures Valid() && |added| == total <= maxLength && AddingStopped(writer, maxLength - total)
      ensures (added, writer.turn) == Handed(old(writer.script), maxLength, maxBufferSize)
      ensures Pins(old(length) + maxLength == maxBufferSize)
      ensures Model() == old(Model()) + added
      ensures writer.given == old(writer.given) + added
    {
      ghost var stored, given := Model(), writer.given;
      data.Resize(data.size + maxLength);
      ghost var all := Starts(writer, maxLength);
      total, added := FeedMemory(writer, maxLength, stored, given, all);
    }

    /** Chunk after chunk, until the space is full or the adding stops; what is left of it is given up or pending. */
    method FeedMemory(writer: Writer, maxLength: nat, ghost stored: seq<byte>, ghost given: seq<byte>,
                      ghost all: (seq<byte>, Turn))
      returns (total: nat, ghost added: seq<byte>)
      requires Core() && file == null && asyncAddLength == 0 && data.size == length + maxLength <= maxBufferSize
      requires Adding(writer, stored, given, all, [], maxLength)
      modifies this`length, this`asyncAddLength, data, writer
      ensures Valid() && |added| == total <= maxLength && AddingStopped(writer, maxLength - total)
      ensures all == (added, writer.turn) && Model() == stored + added && writer.given == given + added
      ensures old(data.reallocs) <= data.reallocs
      ensures old(data.size) < old(data.capacity) ==> data.reallocs == old(data.reallocs)
    {
      var left, offset := maxLength, length;
      total, added := 0, [];
      while left > 0
        invariant Core() && asyncAddLength == 0
        invariant 0 <= left && left + total == maxLength && offset == length && data.size == offset + left
        invariant |added| == total && Adding(writer, stored, given, all, added, left)
        invariant data.reallocs == old(data.reallocs) && data.capacity == old(data.capacity)
      {
        ghost var more;
        var n, rest;
        n, rest, more := ChunkIntoMemory(writer, left, offset, stored, given, all, added);
        if n == 0 {
          if asyncAddLength > 0 { return; }
          break;
        }
        added := more;
        total, left, offset := total + n, rest, offset + n;
      }
      if left == 0 { Stops(writer, stored, given, all, added); }
      TrimMemory(offset);
    }

    /** One turn of the writer: n bytes are stored, or nothing is and the adding stops. */
    method ChunkIntoFile(writer: Writer, left: nat, bufferSize: nat, ghost stored: seq<byte>, ghost given: seq<byte>,
                         ghost all: (seq<byte>, Turn), ghost added: seq<byte>)
      returns (n: nat, rest: nat, ghost more: seq<byte>, ghost lost: seq<byte>)
      requires Valid() && asyncAddLength == 0 && 0 < bufferSize == Min(left, maxBufferSize) <= writeBuffer.size
      requires Adding(writer, stored, given, all, added, left)
      modifies this`file, this`fileOp, this`length, this`troubles, this`asyncAddLength, data, writeBuffer, file, writer
      ensures (file != old(file) ==> fresh(file)) && Moves(old(file)) && writeBuffer.size == old(writeBuffer.size)
      ensures n <= bufferSize && rest == left - n && |more| == |added| + n
      ensures n > 0 ==> && Valid() && asyncAddLength == 0 && troubles == old(troubles) && file != null
                        && Adding(writer, stored, given, all, more, rest)
      ensures n == 0 ==>
                && (if Stranded() then file == null && writer.turn == WentAsync else Valid())
                && (writer.turn == WentAsync && file == null ==> Stranded())
                && Model() == stored + added && more == added
                && writer.given == given + (added + lost) && AddingDone(writer, all, added, lost)
                && asyncAddLength == (if writer.turn == WentAsync then bufferSize else 0)
                && troubles == (if lost != [] || Stranded() then old(troubles) + 1 else old(troubles))
      ensures (old(Calm()) ==> troubles == old(troubles)) && Pins(false)
    {
      ghost var script, model, given' := writer.script, Model(), writer.given;
      var r := writer.WriteToBuffer(bufferSize);
      n, rest, more, lost := 0, left, added, [];
      assert !Stranded() && added + lost == added;
      var l := if r.Wrote? then left - |r.bytes| else left;
      ghost var m := if r.Wrote? then added + r.bytes else added;
      HandsOver(model, given', script, stored, given, all, added, left, maxBufferSize, r, m, l);
      if r.Async? {
        LeaveForFile(bufferSize);
      } else if r.bytes != [] {
        var ok := TakeIntoFile(r.bytes);
        if ok { n, rest, more := |r.bytes|, l, m; } else { lost := r.bytes; }
        Regroup(given, added, r.bytes);
      }
    }

    method AddDirectToFile(writer: Writer, maxLength: nat)
      returns (total: nat, ghost added: seq<byte>, ghost lost: seq<byte>)
      requires Valid() && asyncAddLength == 0 && writer.turn == Gave
      modifies this`file, this`fileOp, this`length, this`troubles, this`asyncAddLength, data, writeBuffer, file, writer
      ensures (if Stranded() then file == null else Valid()) && (file != old(file) ==> fresh(file)) && Moves(old(file))
      ensures Model() == old(Model()) + added && |added| == total <= maxLength
      ensures AddingStopped(writer, maxLength - total)
      ensures writer.given == old(writer.given) + (added + lost)
      ensures AddingDone(writer, Handed(old(writer.script), maxLength, maxBufferSize), added, lost)
      ensures troubles == if lost != [] || Stranded() then old(troubles) + 1 else old(troubles)
      ensures old(Calm()) ==> troubles == old(troubles)
      ensures writeBuffer.size == Max(old(writeBuffer.size), Min(maxLength, maxBufferSize))
      ensures (writer.turn == WentAsync && file == null ==> Stranded()) && (added != [] ==> file != null)
      ensures Pins(false)
    {
      ghost var stored, given := Model(), writer.given;
      SizeWriteBuffer(Min(maxLength, maxBufferSize));
      ghost var all := Starts(writer, maxLength);
      total, added, lost := FeedFile(writer, maxLength, stored, given, all);
    }

    /** Chunk after chunk, until enough has been stored or the adding stops. */
    method FeedFile(writer: Writer, maxLength: nat, ghost stored: seq<byte>, ghost given: seq<byte>,
                    ghost all: (seq<byte>, Turn))
      returns (total: nat, ghost added: seq<byte>, ghost lost: seq<byte>)
      requires Valid() && asyncAddLength == 0 && Min(maxLength, maxBufferSize) <= writeBuffer.size
      requires Adding(writer, stored, given, all, [], maxLength)
      modifies this`file, this`fileOp, this`length, this`troubles, this`asyncAddLength, data, writeBuffer, file, writer
      ensures (if Stranded() then file == null else Valid()) && (file != old(file) ==> fresh(file)) && Moves(old(file))
      ensures Model() == stored + added && |added| == total <= maxLength && AddingStopped(writer, maxLength - total)
      ensures writer.given == given + (added + lost) && AddingDone(writer, all, added, lost)
      ensures troubles == if lost != [] || Stranded() then old(troubles) + 1 else old(troubles)
      ensures (old(Calm()) ==> troubles == old(troubles)) && writeBuffer.size == old(writeBuffer.size)
      ensures (writer.turn == WentAsync && file == null ==> Stranded()) && (added != [] ==> file != null)
      ensures Pins(false)
    {
      var left, bufferSize := maxLength, Min(maxLength, maxBufferSize);
      total, added, lost := 0, [], [];
      while left > 0
        invariant Valid() && asyncAddLength == 0 && (file != old(file) ==> fresh(file)) && Moves(old(file))
        invariant left + total == maxLength && bufferSize == Min(left, maxBufferSize) <= writeBuffer.size
        invariant 0 <= left && troubles == old(troubles) && writeBuffer.size == old(writeBuffer.size)
        invariant (added != [] ==> file != null) && Pins(false)
        invariant |added| == total && Adding(writer, stored, given, all, added, left)
      {
        ghost var more, bytes;
        var n, rest;
        n, rest, more, bytes := ChunkIntoFile(writer, left, bufferSize, stored, given, all, added);
        if n == 0 {
          lost := bytes;
          return;
        }
        total, left, added := total + n, rest, more;
        bufferSize := Min(left, bufferSize);
      }
      Stops(writer, stored, given, all, added);
      assert added + lost == added;
    }

    /** The asynchronous writer puts bytes where it was told to. */
    method FillAsync(bytes: seq<byte>)
      requires (Valid() || Stranded()) && |bytes| <= asyncAddLength
      modifies if Valid() && file == null then data else writeBuffer
      ensures (Valid() <==> old(Valid())) && (Stranded() <==> old(Stranded())) && Core() && Model() == old(Model())
      ensures Pending() == Overwrite(old(Pending()), 0, bytes)
      ensures writeBuffer.size == old(writeBuffer.size) && Pins(false)
    {
      if file == null && data.size == length + asyncAddLength { FillMemory(bytes); } else { FillWriteBuffer(bytes); }
    }

    method FillMemory(bytes: seq<byte>)
      requires Valid() && |bytes| <= asyncAddLength && file == null
      modifies data`buffer
      ensures Valid() && Model() == old(Model())
      ensures Pending() == Overwrite(old(Pending()), 0, bytes)
    {
      ghost var was := data.buffer;
      data.Store(length, bytes);
      Spliced(was, length, bytes, data.size, data.buffer);
    }

    method FillWriteBuffer(bytes: seq<byte>)
      requires (Stranded() || (Valid() && file != null)) && |bytes| <= asyncAddLength
      modifies writeBuffer`buffer
      ensures (Valid() <==> old(Valid())) && (Stranded() <==> old(Stranded())) && Core() && Model() == old(Model())
      ensures Pending() == Overwrite(old(Pending()), 0, bytes)
    {
      ghost var was := writeBuffer.buffer;
      writeBuffer.Store(0, bytes);
      Spliced(was, 0, bytes, asyncAddLength, writeBuffer.buffer);
    }

    /**
      The first n bytes the asynchronous writer left are stored; in a file they may be lost instead.
      Not every state in which an add is pending is valid: a stranded store, or one that has moved to a
      file with an add pending, stays broken.  The result is false, and nothing changes, where the
      source fails an assertion: it would shrink its memory below zero, or use a write buffer that does
      not hold n bytes.
     */
    method AddDataDirectFinishAsync(n: nat) returns (sound: bool)
      requires Core() && !isFinalized && n <= asyncAddLength
      modifies this`file, this`fileOp, this`length, this`troubles, this`asyncAddLength, data, file
      ensures sound <==> old(CanFinish(n))
      ensures Shape() && (Valid() <==> old(Valid())) && file == old(file)
      ensures !sound || old(asyncAddLength) == 0 ==> unchanged(old(Repr()))
      ensures sound ==> asyncAddLength == 0
      ensures old(Valid()) ==>
                && sound && Model() == old(Model()) + (if troubles > old(troubles) then [] else old(Pending())[..n])
                && Pins(old(asyncAddLength) > 0 && file == null && length == maxBufferSize)
      ensures sound && file == null ==>
                && length == old(length) + n && troubles == old(troubles)
                && Visible() == old(Visible())[..old(|Visible()| - (asyncAddLength - n))]
      ensures sound && file != null && old(asyncAddLength) > 0 ==>
                && (troubles == old(troubles) || (troubles == old(troubles) + 1 && !disk.steady))
                && var more := if troubles > old(troubles) then [] else old(writeBuffer.buffer)[..n];
                   Visible() == old(Visible()) + more && length == old(length) + |more|
    {
      if n == 0 && asyncAddLength == 0 { return true; }
      if file == null {
        if asyncAddLength - n > data.size { return false; }
        FinishInMemory(n);
      } else {
        if writeBuffer.size == 0 || n > writeBuffer.size { return false; }
        FinishInFile(n);
      }
      return true;
    }

    method FinishInMemory(n: nat)
      requires Core() && file == null && n <= asyncAddLength && asyncAddLength - n <= data.size
      modifies this`length, this`asyncAddLength, data
      ensures Shape() && asyncAddLength == 0 && length == old(length) + n
      ensures Visible() == old(Visible())[..old(data.size - (asyncAddLength - n))]
      ensures Valid() <==> old(Valid())
      ensures old(Valid()) ==> Model() == old(Model()) + old(Pending())[..n] && Pins(length == maxBufferSize)
    {
      ghost var was, all, keep := data.buffer, data.size, data.size - (asyncAddLength - n);
      data.Resize(data.size - (asyncAddLength - n));
      Cut(was, data.buffer, all, length, keep);
      length := length + n;
      asyncAddLength := 0;
    }

    method FinishInFile(n: nat)
      requires Core() && !isFinalized && file != null
      requires 0 < asyncAddLength && n <= asyncAddLength && n <= writeBuffer.size
      modifies this`file, this`fileOp, this`length, this`troubles, this`asyncAddLength, data, file
      ensures Shape() && asyncAddLength == 0 && file == old(file) && unchanged(data)
      ensures Valid() <==> old(Valid())
      ensures troubles == old(troubles) || (troubles == old(troubles) + 1 && !disk.steady)
      ensures var more := if troubles > old(troubles) then [] else old(writeBuffer.buffer)[..n];
              Visible() == old(Visible()) + more && length == old(length) + |more|
      ensures old(Valid()) ==> Model() == old(Model()) + if troubles > old(troubles) then [] else old(Pending())[..n]
    {
      var ok := AddDataToFile(writeBuffer.buffer[..n]);
      asyncAddLength := 0;
    }

    /**
      Changes only where the bytes are kept, with one exception: a store with an add pending in memory
      that moves to a file takes the reserved bytes along, and is broken from then on.
     */
    method Reserve(num: int)
      requires Core()
      modifies this`file, this`fileOp, this`length, this`troubles, data, file
      ensures Core() && (file != old(file) ==> fresh(file)) && Moves(old(file))
      ensures Model() == old(Model()) && Visible() == old(Visible())
      ensures old(file) == null && num <= maxBufferSize ==>
                && num <= data.capacity
                && data.reallocs == if num < old(data.capacity) then old(data.reallocs) else old(data.reallocs) + 1
      ensures old(file) != null || num <= maxBufferSize ==> file == old(file) && troubles == old(troubles)
      ensures old(file) == null && num > maxBufferSize ==>
                && troubles == (if file == null then old(troubles) + 1 else old(troubles))
                && (old(Calm()) ==> file != null)
      ensures Valid() <==> if file == old(file) then old(Valid())
                           else old(Stranded()) || (old(Valid()) && asyncAddLength == 0)
      ensures Stranded() <==> old(Stranded()) && file == null
      ensures old(Valid() || Stranded()) && (Valid() || Stranded()) ==> Pending() == old(Pending())
      ensures Pins(old(file) == null && num == maxBufferSize)
    {
      if file != null { return; }
      if num > maxBufferSize {
        var spilled := AddDataToFile([]);
      } else {
        ReserveInMemory(num);
      }
    }

    method ReserveInMemory(num: int)
      requires Core() && file == null && num <= maxBufferSize
      modifies data
      ensures Core() && num <= data.capacity && data.size == old(data.size) && Visible() == old(Visible())
      ensures old(Valid()) ==> Valid() && Pending() == old(Pending())
      ensures data.reallocs == if num < old(data.capacity) then old(data.reallocs) else old(data.reallocs) + 1
    {
      ghost var was := data.buffer;
      data.Reserve(num);
      assert data.buffer[..data.size] == was[..data.size];
      if old(Valid()) { assert data.buffer[length..data.size] == was[length..data.size]; }
    }

    /** The bytes shown in memory are in a block that has reached its final size. */
    method GetDataElement() returns (bytes: Option<seq<byte>>)
      requires Core()
      modifies this`preserveData, data
      ensures Core() && Model() == old(Model()) && Visible() == old(Visible())
      ensures (Valid() <==> old(Valid())) && (Stranded() <==> old(Stranded()))
      ensures old(Valid() || Stranded()) ==> Pending() == old(Pending())
      ensures bytes == if file == null then Some(Visible()) else None
      ensures file == null && !isFinalized ==> data.capacity == maxBufferSize
      ensures preserveData == (old(preserveData) || (file == null && !isFinalized))
      ensures data.reallocs == if preserveData && !old(preserveData) then old(data.reallocs) + 1 else old(data.reallocs)
      ensures Pins(false)
    {
      if !isFinalized && file == null && !preserveData {
        ReserveInMemory(maxBufferSize);
        preserveData := true;
      }
      return if file == null then Some(data.buffer[..data.size]) else None;
    }

    /** Releases the write buffer, also from under an asynchronous writer; no such add can be finished any more. */
    method Finalize()
      requires Core()
      modifies this`isFinalized, writeBuffer
      ensures Core() && isFinalized && writeBuffer.capacity == 0
      ensures Model() == old(Model()) && Visible() == old(Visible())
      ensures Valid() <==> old(Valid()) && (file == null || asyncAddLength == 0)
      ensures !Stranded() && (Valid() ==> Pending() == old(Pending()))
    {
      isFinalized := true;
      if writeBuffer.capacity != 0 {
        var empty := new MemoryBuffer();
        writeBuffer.Swap(empty);
      }
    }

    // -------------------------------------------------------------------------------------------
    // Reading
    // -------------------------------------------------------------------------------------------

    method ReadFromFile(offset: nat, max: nat) returns (out: seq<byte>)
      requires Shape() && file != null
      modifies this`fileOp, file`pos
      ensures Shape() && out == Part(file.bytes, offset, max)
    {
      if fileOp == WRITE { fileOp := READ; }
      file.Seek(offset);
      out := file.Read(max);
    }

    method Read(offset: int, max: int) returns (n: int, out: seq<byte>)
      requires Shape()
      modifies this`fileOp, file
      ensures Shape() && Visible() == old(Visible())
      ensures (Core() <==> old(Core())) && (Valid() <==> old(Valid())) && (Stranded() <==> old(Stranded()))
      ensures old(Core()) ==> Model() == old(Model())
      ensures old(Valid() || Stranded()) ==> Pending() == old(Pending())
      ensures if offset < 0 || max < 0 then n == -1 && out == [] else n == |out| && out == Part(Visible(), offset, max)
    {
      if offset < 0 || max < 0 { return -1, []; }
      if file == null {
        if data.size <= offset { return 0, []; }
        var length := if data.size - offset < max then data.size - offset else max;
        out := data.buffer[offset..offset + length];
        assert out == Part(Visible(), offset, max);
        return length, out;
      }
      out := ReadFromFile(offset, max);
      return |out|, out;
    }

    /** What the reader takes is what a read would have returned, unless it stops earlier. */
    method ReadDirect(reader: Reader, offset: int, max: int) returns (total: int)
      requires Shape() && !reader.done
      modifies this`fileOp, file, readBuffer, reader
      ensures Shape() && Visible() == old(Visible())
      ensures (Core() <==> old(Core())) && (Valid() <==> old(Valid())) && (Stranded() <==> old(Stranded()))
      ensures old(Core()) ==> Model() == old(Model())
      ensures old(Valid() || Stranded()) ==> Pending() == old(Pending())
      ensures if offset < 0 || max < 0 then total == -1 && reader.taken == old(reader.taken)
              else 0 <= total && reader.taken == old(reader.taken) + Part(Visible(), offset, total)
      ensures offset >= 0 && max >= 0 ==>
                total <= |Part(Visible(), offset, max)| && (total == |Part(Visible(), offset, max)| || reader.done)
    {
      if offset < 0 || max < 0 { return -1; }
      if file == null {
        total := ReadDirectFromMemory(reader, offset, max);
      } else {
        total := ReadDirectFromFile(reader, offset, max);
      }
    }

    method ReadDirectFromMemory(reader: Reader, offset: nat, max: nat) returns (total: nat)
      requires Shape() && !reader.done && file == null
      modifies reader
      ensures reader.taken == old(reader.taken) + Part(Visible(), offset, total)
      ensures total <= |Part(Visible(), offset, max)| && (total == |Part(Visible(), offset, max)| || reader.done)
    {
      if data.size <= offset { return 0; }
      var s := data.buffer[..data.size];
      var left := if data.size - offset < max then data.size - offset else max;
      total := 0;
      var pos := offset;
      while left > 0
        invariant 0 <= left && total + left == |Part(s, offset, max)| && pos == offset + total && pos + left <= |s|
        invariant reader.taken == old(reader.taken) + Part(s, offset, total)
        invariant !reader.done
      {
        var chunk := s[pos..pos + left];
        var n := reader.ReadFromBuffer(chunk);
        if n == 0 { break; }
        TakesMore(old(reader.taken), s, offset, total, chunk, n);
        total, pos, left := total + n, pos + n, left - n;
      }
    }

    method PassChunk(reader: Reader, pos: nat, bufferSize: nat) returns (n: nat, ghost chunk: seq<byte>)
      requires Shape() && file != null
      modifies this`fileOp, file`pos, reader
      ensures Shape() && chunk == Part(file.bytes, pos, bufferSize)
      ensures n <= |chunk| && reader.taken == old(reader.taken) + chunk[..n]
      ensures if n == 0 then chunk == [] || reader.done else reader.done == old(reader.done)
    {
      n := 0;
      var buffer := ReadFromFile(pos, bufferSize);
      chunk := buffer;
      if buffer != [] { n := reader.ReadFromBuffer(buffer); }
    }

    method ReadDirectFromFile(reader: Reader, offset: nat, max: nat) returns (total: nat)
      requires Shape() && !reader.done && file != null
      modifies this`fileOp, file`pos, readBuffer, reader
      ensures Shape()
      ensures reader.taken == old(reader.taken) + Part(file.bytes, offset, total)
      ensures total <= |Part(file.bytes, offset, max)| && (total == |Part(file.bytes, offset, max)| || reader.done)
    {
      ghost var s, all := file.bytes, |Part(file.bytes, offset, max)|;
      var bufferSize := Min(max, maxBufferSize);
      SizeReadBuffer(bufferSize);
      total := 0;
      var pos, left := offset, max;
      while left > 0
        invariant Shape() && file.bytes == s && total + left == max && pos == offset + total
        invariant 0 <= left && bufferSize <= left && bufferSize <= readBuffer.size && (left > 0 ==> bufferSize > 0)
        invariant total <= all && !reader.done
        invariant reader.taken == old(reader.taken) + Part(s, offset, total)
      {
        ghost var chunk;
        var n;
        n, chunk := PassChunk(reader, pos, bufferSize);
        PartAfter(s, offset, total, max, bufferSize);
        if n == 0 { return; }
        TakesMore(old(reader.taken), s, offset, total, chunk, n);
        total, pos, left := total + n, pos + n, left - n;
        bufferSize := Min(left, bufferSize);
      }
    }

    method SizeReadBuffer(bufferSize: nat)
      requires Shape() && bufferSize <= maxBufferSize
      modifies readBuffer
      ensures Shape() && bufferSize <= readBuffer.size
    {
      if readBuffer.size < bufferSize { readBuffer.Resize(bufferSize); }
    }
  }

  ghost predicate Continues(model: seq<byte>, given': seq<byte>, script: seq<Response>, stored: seq<byte>,
                            given: seq<byte>, all: (seq<byte>, Turn), added: seq<byte>, left: nat, limit: nat)
  {
    && model == stored + added && given' == given + added
    && var rest := Handed(script, left, limit); all.0 == added + rest.0 && all.1 == rest.1
  }

  /** One turn of a writer. */
  lemma HandsOver(model: seq<byte>, given': seq<byte>, script: seq<Response>, stored: seq<byte>, given: seq<byte>,
                  all: (seq<byte>, Turn), added: seq<byte>, left: nat, limit: nat,
                  r: Response, more: seq<byte>, rest: nat)
    requires 0 < left && Continues(model, given', script, stored, given, all, added, left, limit)
    requires r == Answer(script, Min(left, limit))
    requires if r.Wrote? then more == added + r.bytes && rest == left - |r.bytes| else more == added && rest == left
    ensures if r.Async? then all == (added, WentAsync)
            else if r.bytes == [] then all == (added, Finished)
            else
              && script != [] && more <= all.0
              && Continues(model + r.bytes, given' + r.bytes, script[1..], stored, given, all, more, rest, limit)
  {
    var later := Handed(script, left, limit);
    if r.Wrote? && r.bytes != [] {
      Regroup(stored, added, r.bytes);
      Regroup(given, added, r.bytes);
      Regroup(added, r.bytes, Handed(script[1..], rest, limit).0);
    } else {
      assert added + later.0 == added;
    }
  }

  lemma TakesMore(taken: seq<byte>, s: seq<byte>, offset: nat, total: nat, chunk: seq<byte>, n: nat)
    requires 0 < n <= |chunk| && offset + total + |chunk| <= |s|
    requires chunk == s[offset + total..offset + total + |chunk|]
    ensures (taken + Part(s, offset, total)) + chunk[..n] == taken + Part(s, offset, total + n)
  {
    assert Part(s, offset, total + n) == Part(s, offset, total) + chunk[..n];
  }

  lemma PartAfter(s: seq<byte>, offset: nat, total: nat, max: nat, size: nat)
    requires total <= |Part(s, offset, max)| && 0 < size <= max - total
    ensures var chunk := Part(s, offset + total, size);
            if chunk == [] then total == |Part(s, offset, max)|
            else
              && offset + total + |chunk| <= |s| && chunk == s[offset + total..offset + total + |chunk|]
              && |chunk| <= size && total + |chunk| <= |Part(s, offset, max)|
  {
  }

  lemma Spliced(was: seq<byte>, lo: nat, bytes: seq<byte>, hi: nat, now: seq<byte>)
    requires lo + |bytes| <= hi <= |was| && now == was[..lo] + bytes + was[lo + |bytes|..]
    ensures |now| == |was| && now[..lo] == was[..lo] && now[lo..hi] == Overwrite(was[lo..hi], 0, bytes)
  {
    var mid := lo + |bytes|;
    assert now[lo..mid] == bytes;
    assert now[mid..hi] == was[mid..hi] == was[lo..hi][|bytes|..];
    assert now[lo..hi] == now[lo..mid] + now[mid..hi];
  }

  /** What is left of a block whose size has been cut, and how it divides. */
  lemma Cut(was: seq<byte>, now: seq<byte>, all: nat, length: nat, keep: nat)
    requires was <= now && keep <= all <= |was|
    ensures now[..keep] == was[..all][..keep]
    ensures length <= keep ==> now[..keep] == was[..length] + was[length..all][..keep - length]
  {
  }
}
