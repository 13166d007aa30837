/**
  The header store as an object, and the parser that works on the bytes of a message in place.
 */
module HttpParser {
  import opened Basics
  import opened CStrings
  import opened HttpHeaders
  import opened HttpText
  import opened HttpRoundTrip

  // ---------------------------------------------------------------------------------------------
  // Scanning NUL-terminated characters in an array
  // ---------------------------------------------------------------------------------------------

  /** There is a NUL at or after i. */
  ghost predicate Terminated(s: string, i: nat) {
    exists j | i <= j < |s| :: s[j] == '\0'
  }

  lemma TerminatedNext(s: string, i: nat)
    requires Terminated(s, i)
    ensures i < |s| && (s[i] != '\0' ==> Terminated(s, i + 1))
  {
  }

  lemma SkipBlanksCons(c: char, s: string)
    ensures SkipBlanks([c] + s) == if Blank(c) then SkipBlanks(s) else [c] + s
  {
    assert ([c] + s)[1..] == s;
  }

  lemma SkipSpacesCons(c: char, s: string)
    ensures SkipSpaces([c] + s) == if c == ' ' then SkipSpaces(s) else [c] + s
  {
    assert ([c] + s)[1..] == s;
  }

  /** The copy of the characters that a pointer shows. */
  method Strdup(a: array<char>, i: nat) returns (s: string)
    requires Terminated(a[..], i)
    ensures s == CharsAt(a[..], i) && '\0' !in s
  {
    TerminatedNext(a[..], i);
    var j := i;
    while a[j] != '\0'
      invariant i <= j < a.Length && Terminated(a[..], j)
      invariant forall k | i <= k < j :: a[..][k] != '\0'
      decreases a.Length - j
    {
      TerminatedNext(a[..], j);
      j := j + 1;
      TerminatedNext(a[..], j);
    }
    CharsAtEnd(a[..], i, j);
    s := a[..][i..j];
  }

  method SkipBlankChars(a: array<char>, i: nat) returns (j: nat)
    requires Terminated(a[..], i)
    ensures i <= j < a.Length && Terminated(a[..], j) && CharsAt(a[..], j) == SkipBlanks(CharsAt(a[..], i))
    ensures i < j <==> Blank(a[i])
  {
    j := i;
    ghost var s := a[..];
    TerminatedNext(s, i);
    while a[j] == ' ' || a[j] == '\t'
      invariant i <= j < a.Length && Terminated(s, j)
      invariant SkipBlanks(CharsAt(s, j)) == SkipBlanks(CharsAt(s, i))
      invariant i < j ==> Blank(a[i])
      decreases a.Length - j
    {
      BlankSkipped(s, j);
      j := j + 1;
    }
    BlanksEnd(s, j);
  }

  lemma BlankSkipped(s: string, j: nat)
    requires Terminated(s, j) && j < |s| && Blank(s[j])
    ensures j + 1 < |s| && Terminated(s, j + 1) && SkipBlanks(CharsAt(s, j)) == SkipBlanks(CharsAt(s, j + 1))
  {
    TerminatedNext(s, j);
    TerminatedNext(s, j + 1);
    SkipBlanksCons(s[j], CharsAt(s, j + 1));
  }

  lemma BlanksEnd(s: string, j: nat)
    requires j < |s| && !Blank(s[j])
    ensures SkipBlanks(CharsAt(s, j)) == CharsAt(s, j)
  {
    if s[j] != '\0' { SkipBlanksCons(s[j], CharsAt(s, j + 1)); }
  }

  method SkipSpaceChars(a: array<char>, i: nat) returns (j: nat)
    requires Terminated(a[..], i)
    ensures i <= j < a.Length && Terminated(a[..], j) && CharsAt(a[..], j) == SkipSpaces(CharsAt(a[..], i))
  {
    j := i;
    TerminatedNext(a[..], i);
    while a[j] == ' '
      invariant i <= j < a.Length && Terminated(a[..], j)
      invariant SkipSpaces(CharsAt(a[..], j)) == SkipSpaces(CharsAt(a[..], i))
      decreases a.Length - j
    {
      SkipSpacesCons(a[j], CharsAt(a[..], j + 1));
      TerminatedNext(a[..], j);
      j := j + 1;
      TerminatedNext(a[..], j);
    }
    if a[j] != '\0' { SkipSpacesCons(a[j], CharsAt(a[..], j + 1)); }
  }

  /** Where the character first is, if it is before the NUL. */
  method Strchr(a: array<char>, i: nat, c: char) returns (r: Option<nat>)
    requires Terminated(a[..], i) && c != '\0'
    ensures r.None? ==> c !in CharsAt(a[..], i)
    ensures r.Some? ==> i <= r.value < a.Length && a[r.value] == c
    ensures r.Some? ==> c !in a[..][i..r.value] && '\0' !in a[..][i..r.value]
    ensures r.Some? ==> Terminated(a[..], r.value)
  {
    var j := i;
    TerminatedNext(a[..], i);
    while a[j] != '\0' && a[j] != c
      invariant i <= j < a.Length && Terminated(a[..], j)
      invariant forall k | i <= k < j :: a[..][k] != c && a[..][k] != '\0'
      decreases a.Length - j
    {
      TerminatedNext(a[..], j);
      j := j + 1;
      TerminatedNext(a[..], j);
    }
    if a[j] == '\0' {
      CharsAtEnd(a[..], i, j);
      return None;
    }
    return Some(j);
  }

  /** Where the key ends: before the spaces that precede the colon. */
  method TrimBack(a: array<char>, line: nat, colon: nat) returns (end: nat)
    requires line <= colon < a.Length
    ensures line <= end <= colon && a[..][line..end] == TrimSpaces(a[..][line..colon])
  {
    end := colon;
    while end > line && a[end - 1] == ' '
      invariant line <= end <= colon && TrimSpaces(a[..][line..end]) == TrimSpaces(a[..][line..colon])
    {
      assert a[..][line..end][..end - line - 1] == a[..][line..end - 1];
      end := end - 1;
    }
  }

  // ---------------------------------------------------------------------------------------------
  // Building a string
  // ---------------------------------------------------------------------------------------------

  /** The first n characters of s, filled up with NULs. */
  function Padded(s: string, n: nat): (r: string)
    ensures |r| == n
  {
    if n <= |s| then s[..n] else s + seq(n - |s|, _ => '\0')
  }

  method Strncpy(dest: array<char>, at: nat, src: string, n: nat)
    requires at + n <= dest.Length
    modifies dest
    ensures dest[..] == old(dest[..])[..at] + Padded(src, n) + old(dest[..])[at + n..]
  {
    for i := 0 to n
      invariant forall j | 0 <= j < dest.Length ::
                  dest[j] == if at <= j < at + i then Padded(src, n)[j - at] else old(dest[j])
    {
      dest[at + i] := if i < |src| then src[i] else '\0';
    }
  }

  /** What stands before the padding after a copy to the end of the block. */
  lemma Copied(was: string, now: string, at: nat, src: string, n: nat, before: string)
    requires at + n == |was| && |src| < n && was[..at] == before
    requires now == was[..at] + Padded(src, n) + was[at + n..]
    ensures |now| == |was| && now[..at + |src|] == before + src && now[at + |src|] == '\0'
  {
    assert now[..at + |src|] == was[..at] + Padded(src, n)[..|src|];
  }

  /** Copies src behind what is there before, and fills the block up with NULs. */
  method AppendPart(block: array<char>, at: nat, src: string, ghost before: string)
    requires at + |src| < block.Length && block[..at] == before
    modifies block
    ensures block[..at + |src|] == before + src && block[at + |src|] == '\0'
  {
    ghost var was := block[..];
    Strncpy(block, at, src, block.Length - at);
    Copied(was, block[..], at, src, block.Length - at, before);
    assert block[..at + |src|] == block[..][..at + |src|];
  }

  /** The copy of three strings one after the other, as it is built in one block of memory. */
  method Concatenate(first: string, separator: string, value: string) returns (s: string)
    requires '\0' !in first && '\0' !in separator && '\0' !in value
    ensures s == first + separator + value && '\0' !in s
  {
    var block := new char[|first| + |separator| + |value| + 1];
    AppendPart(block, 0, first, "");
    AppendPart(block, |first|, separator, "" + first);
    AppendPart(block, |first| + |separator|, value, "" + first + separator);
    s := ShownBy(block, "" + first + separator + value);
  }

  method ShownBy(block: array<char>, ghost text: string) returns (s: string)
    requires block.Length == |text| + 1 && block[..|text|] == text && block[|text|] == '\0' && '\0' !in text
    ensures s == text
  {
    Shown(block[..], text);
    s := Strdup(block, 0);
  }

  lemma Shown(block: string, text: string)
    requires |block| == |text| + 1 && block[..|text|] == text && block[|text|] == '\0' && '\0' !in text
    ensures Terminated(block, 0) && CharsAt(block, 0) == text
  {
    forall j | 0 <= j < |text| ensures block[j] != '\0' { assert block[j] == block[..|text|][j]; }
    CharsAtEnd(block, 0, |text|);
    assert block[0..|text|] == block[..|text|];
  }

  // ---------------------------------------------------------------------------------------------
  // The store
  // ---------------------------------------------------------------------------------------------

  class HTTPHeaders {
    var headers: seq<Entry>
    var status: Status

    ghost predicate Valid()
      reads this
    {
      AllTerminable(headers)
    }

    constructor ()
      ensures Valid() && headers == [] && status == Status("", HTTP_ERROR, 0, "")
    {
      headers, status := [], Status("", HTTP_ERROR, 0, "");
    }

    method AddNewHeader(key: string, value: Option<string>)
      requires Valid() && Terminable(Entry(key, value))
      modifies this`headers
      ensures Valid() && headers == old(headers) + [Entry(key, value)]
    {
      headers := headers + [Entry(key, value)];
    }

    method AppendValueToHeader(i: nat, separator: string, value: string)
      requires Valid() && i < |headers| && headers[i].value.Some? && '\0' !in separator && '\0' !in value
      modifies this`headers
      ensures Valid()
      ensures var e := old(headers)[i];
              headers == old(headers)[i := Entry(e.key, Some(e.value.value + separator + value))]
    {
      var e := headers[i];
      assert Terminable(e);
      var second := Concatenate(e.value.value, separator, value);
      headers := headers[i := Entry(e.key, Some(second))];
    }

    /** The value of the first header of that name. */
    method GetHeader(key: string) returns (value: Option<Option<string>>)
      ensures value == Lookup(headers, key)
    {
      for i := 0 to |headers|
        invariant forall j | 0 <= j < i :: !SameName(headers[j].key, key)
      {
        if SameName(headers[i].key, key) {
          FindIs(headers, key, i);
          return Some(headers[i].value);
        }
      }
      FindIs(headers, key, |headers|);
      return None;
    }

    /** The values of all headers of that name. */
    method GetHeaders(key: string) returns (values: seq<Option<string>>)
      ensures values == AllValues(headers, key)
    {
      values := [];
      for i := 0 to |headers|
        invariant values == AllValues(headers[..i], key)
      {
        NewHeaderComesLast(headers[..i], headers[i], key);
        assert headers[..i + 1] == headers[..i] + [headers[i]];
        if SameName(headers[i].key, key) { values := values + [headers[i].value]; }
      }
      assert headers[..|headers|] == headers;
    }

    method ClearHeader(key: string) returns (deleted: bool)
      requires Valid()
      modifies this`headers
      ensures Valid() && headers == Cleared(old(headers), key)
      ensures deleted <==> Find(old(headers), key) < |old(headers)|
    {
      deleted := false;
      var i := 0;
      ghost var was := headers;
      SweptEnds(headers, key);
      while i < |headers|
        invariant i <= |headers| && Swept(headers, i, key) == Cleared(was, key)
        invariant if deleted then |headers| < |was| else headers == was
        decreases |headers| - i
      {
        ClearStep(headers, i, key);
        if SameName(headers[i].key, key) {
          headers := headers[..i] + headers[i + 1..];
          deleted := true;
        } else {
          i := i + 1;
        }
      }
      SweptEnds(headers, key);
      ClearedIsSame(was, key);
      ClearedIsRemoval(was, key);
    }

    /** A CR or LF in a value is replaced. */
    static method Sanitize(value: string) returns (copy: string)
      ensures copy == Clean(value) && ('\0' !in value ==> '\0' !in copy)
    {
      copy := value;
      for i := 0 to |value|
        invariant |copy| == |value|
        invariant forall j | 0 <= j < |value| :: copy[j] == if j < i then CleanChar(value[j]) else value[j]
      {
        if value[i] == '\r' || value[i] == '\n' { copy := copy[i := '_']; }
      }
    }

    method SetHeader(key: string, value: Option<string>, overwrite: Overwrite)
      requires Valid() && Terminable(Entry(key, value))
      modifies this`headers
      ensures Valid() && headers == Set(old(headers), key, value, overwrite)
    {
      var v := value;
      if value.Some? {
        var copy := Sanitize(value.value);
        v := Some(copy);
      }
      var multi := MultiLine(key);
      if multi {
        if overwrite == APPEND {
          AddNewHeader(key, v);
          return;
        } else if overwrite == OVERWRITE {
          var deleted := ClearHeader(key);
          AddNewHeader(key, v);
          return;
        }
      }
      MergeOrAdd(key, v, overwrite, multi);
    }

    method MergeOrAdd(key: string, v: Option<string>, overwrite: Overwrite, ghost multi: bool)
      requires Valid() && Terminable(Entry(key, v)) && (multi ==> overwrite == NO_OVERWRITE)
      modifies this`headers
      ensures Valid() && headers == SetIn(old(headers), key, v, overwrite, multi)
    {
      var i := 0;
      while i < |headers|
        invariant i <= |headers| && forall j | 0 <= j < i :: !SameName(headers[j].key, key)
        invariant headers == old(headers)
      {
        if SameName(headers[i].key, key) {
          FindIs(headers, key, i);
          assert Terminable(headers[i]);
          if overwrite == NO_OVERWRITE {
            // The header stays as it is.
          } else if overwrite == OVERWRITE || headers[i].value.None? {
            headers := headers[i := Entry(key, v)];
          } else if v.Some? {
            headers := headers[i := Entry(key, headers[i].value)];
            AppendValueToHeader(i, ",", v.value);
          }
          return;
        }
        i := i + 1;
      }
      FindIs(headers, key, i);
      AddNewHeader(key, v);
    }

    // -------------------------------------------------------------------------------------------
    // Lines
    // -------------------------------------------------------------------------------------------

    /** The line is cut up in place and put together again. */
    method SetHeaderFromLine(a: array<char>, line: nat, overwrite: Overwrite)
      requires Valid() && Terminated(a[..], line) && CanRead(headers, CharsAt(a[..], line))
      modifies this`headers, a
      ensures Valid() && a[..] == old(a[..])
      ensures headers == SetFromLine(old(headers), CharsAt(old(a[..]), line), overwrite)
    {
      var start := SkipBlankChars(a, line);
      if start > line {
        if headers == [] { return; }
        var last := |headers| - 1;
        var more := Strdup(a, start);
        var separator := if headers[last].value.value != "" && more != "" then " " else "";
        AppendValueToHeader(last, separator, more);
        return;
      }
      var colon := Strchr(a, line, ':');
      if colon.Some? { SetHeaderFromColon(a, line, colon.value, overwrite); }
    }

    method SetHeaderFromColon(a: array<char>, line: nat, colon: nat, overwrite: Overwrite)
      requires Valid() && line <= colon < a.Length && a[colon] == ':' && Terminated(a[..], colon) && !Blank(a[line])
      requires ':' !in a[..][line..colon] && '\0' !in a[..][line..colon]
      modifies this`headers, a
      ensures Valid() && a[..] == old(a[..])
      ensures headers == SetFromLine(old(headers), CharsAt(old(a[..]), line), overwrite)
    {
      ghost var key, value := TrimSpaces(a[..][line..colon]), SkipSpaces(CharsAt(a[..], colon + 1));
      ColonSplits(a[..], line, colon);
      LineSets(headers, CharsAt(a[..], line), key, value, overwrite);
      SetHeaderAround(a, line, colon, overwrite);
    }

    method SetHeaderAround(a: array<char>, line: nat, colon: nat, overwrite: Overwrite)
      requires Valid() && line <= colon < a.Length && Terminated(a[..], colon + 1) && '\0' !in a[..][line..colon]
      modifies this`headers, a
      ensures Valid() && a[..] == old(a[..])
      ensures var key := TrimSpaces(old(a[..][line..colon]));
              var value := SkipSpaces(CharsAt(old(a[..]), colon + 1));
              headers == Set(old(headers), key, Some(value), LineMode(key, overwrite))
    {
      ghost var s := a[..];
      var end := TrimBack(a, line, colon);
      var was := a[end];
      a[end] := '\0';
      CutShows(s, a[..], line, end, colon);
      var value := SkipSpaceChars(a, colon + 1);
      var k := Strdup(a, line);
      var v := Strdup(a, value);
      SetHeader(k, Some(v), if SameName(k, "host") then NO_OVERWRITE else overwrite);
      a[end] := was;
      assert a[..] == s;
    }

    /** Whether it is a valid status line. */
    method AddResponseFirstline(line: string) returns (good: bool)
      modifies this`status
      ensures (status, good) == WithFirstline(old(status), line)
    {
      var next := WithFirstline(status, line);
      status, good := next.0, next.1;
    }

    /** The text of the headers.  The conversion advances the stored pointers, so the list is used up. */
    method GenerateHeaderString() returns (text: string)
      requires NoNulls(headers)
      modifies this`headers
      ensures text == Print(old(headers))
      ensures headers == UsedUp(old(headers))
    {
      ghost var was := headers;
      text := "";
      var i := 0;
      while i < |headers|
        invariant i <= |headers| == |was| && NoNulls(was)
        invariant headers == UsedUpTo(was, i)
        invariant text + Lines(was[i..]) == Lines(was)
      {
        assert headers[i] == was[i];
        UsedUpStep(was, i);
        PrintStep(text, was, i);
        text := text + headers[i].key + ":" + " " + headers[i].value.value + "\r" + "\n";
        headers := headers[i := Entry("", Some(""))];
        i := i + 1;
      }
      text := text + "\r" + "\n";
    }
  }

  // ---------------------------------------------------------------------------------------------
  // Printing twice
  // ---------------------------------------------------------------------------------------------

  function UsedUp(hs: seq<Entry>): (r: seq<Entry>)
    ensures |r| == |hs| && NoNulls(r)
  {
    seq(|hs|, _ => Entry("", Some("")))
  }

  ghost function UsedUpTo(hs: seq<Entry>, i: nat): seq<Entry>
    requires i <= |hs|
  {
    UsedUp(hs[..i]) + hs[i..]
  }

  lemma UsedUpStep(hs: seq<Entry>, i: nat)
    requires i < |hs|
    ensures UsedUpTo(hs, i)[i] == hs[i] && UsedUpTo(hs, i)[i := Entry("", Some(""))] == UsedUpTo(hs, i + 1)
    ensures i + 1 == |hs| ==> UsedUpTo(hs, i + 1) == UsedUp(hs)
  {
  }

  lemma PrintStep(text: string, hs: seq<Entry>, i: nat)
    requires i < |hs| && NoNulls(hs)
    ensures text + Lines(hs[i..])
         == (text + hs[i].key + ":" + " " + hs[i].value.value + "\r" + "\n") + Lines(hs[i + 1..])
  {
    assert hs[i..][1..] == hs[i + 1..];
    assert Line(hs[i]) == hs[i].key + ":" + " " + hs[i].value.value + "\r" + "\n";
  }

  lemma {:induction false} LinesLength(hs: seq<Entry>)
    requires NoNulls(hs)
    ensures |Lines(hs)| >= 4 * |hs|
    ensures |Lines(hs)| == 4 * |hs| <==> forall i | 0 <= i < |hs| :: hs[i] == Entry("", Some(""))
  {
    if hs != [] {
      LinesLength(hs[1..]);
      assert forall i | 0 <= i < |hs[1..]| :: hs[1..][i] == hs[i + 1];
      assert |Line(hs[0])| == |hs[0].key| + |hs[0].value.value| + 4;
    }
  }

  /** A second printing gives the same text only when there was nothing to print. */
  lemma SecondPrinting(hs: seq<Entry>)
    requires NoNulls(hs)
    ensures Print(UsedUp(hs)) == Print(hs) <==> forall i | 0 <= i < |hs| :: hs[i] == Entry("", Some(""))
  {
    LinesLength(hs);
    LinesLength(UsedUp(hs));
    if forall i | 0 <= i < |hs| :: hs[i] == Entry("", Some("")) { assert UsedUp(hs) == hs; }
  }

  // ---------------------------------------------------------------------------------------------
  // The parser
  // ---------------------------------------------------------------------------------------------

  /** The first c from lo up to hi. */
  method Memchr(a: array<char>, lo: nat, hi: nat, c: char) returns (r: Option<nat>)
    requires lo <= hi <= a.Length
    ensures r.None? ==> forall j | lo <= j < hi :: a[..][j] != c
    ensures r.Some? ==> lo <= r.value < hi && a[r.value] == c && forall j | lo <= j < r.value :: a[..][j] != c
  {
    for i := lo to hi
      invariant forall j | lo <= j < i :: a[..][j] != c
    {
      if a[i] == c { return Some(i); }
    }
    return None;
  }

  lemma {:induction false} LineEndSkips(s: string, i: nat, j: nat)
    requires i <= j && j + 1 <= |s| && forall k | i <= k < j :: s[k] != '\r'
    ensures LineEnd(s, i) == LineEnd(s, j)
    decreases j - i
  {
    if i < j { LineEndSkips(s, i + 1, j); }
  }

  method FindLineEnd(a: array<char>, line: nat) returns (end: Option<nat>)
    ensures end == LineEnd(a[..], line)
  {
    if line + 1 >= a.Length { return None; }
    var start := line;
    while true
      invariant start < a.Length && LineEnd(a[..], start) == LineEnd(a[..], line)
      decreases a.Length - start
    {
      end := Memchr(a, start, a.Length - 1, '\r');
      LineEndSkips(a[..], start, if end.None? then a.Length - 1 else end.value);
      if end.None? || a[end.value + 1] == '\n' { return; }
      start := end.value + 1;
    }
  }

  ghost function StoreOf(headers: HTTPHeaders?): Store
    reads headers
  {
    if headers == null then Store([], Status("", HTTP_ERROR, 0, "")) else Store(headers.headers, headers.status)
  }

  /** The headers, if they are wanted, can be recorded from that place on. */
  ghost predicate Ready(headers: HTTPHeaders?, s: string, line: nat, num: nat)
    reads headers
  {
    headers != null ==> headers.Valid() && SafeParse(s, line, num, StoreOf(headers))
  }

  /** Records a header line, through the message itself or through a copy of the line. */
  method RecordLine(a: array<char>, line: nat, end: nat, headers: HTTPHeaders, inPlace: bool)
    requires headers.Valid() && line <= end < a.Length && CanRead(headers.headers, CString(a[..][line..end]))
    modifies a, headers`headers
    ensures headers.Valid() && a[..] == old(a[..])
    ensures headers.headers == SetFromLine(old(headers.headers), CString(old(a[..][line..end])), APPEND)
  {
    ghost var s := a[..];
    if inPlace {
      var was := a[end];
      a[end] := '\0';
      CutLine(s, a[..], line, line, end);
      headers.SetHeaderFromLine(a, line, APPEND);
      a[end] := was;
      assert a[..] == s;
    } else {
      var copy := new char[end - line + 1](
        i requires 0 <= i <= end - line reads a => if i < end - line then a[line + i] else '\0');
      assert copy[..][..end - line] == s[line..end];
      assert copy[..][end - line] == '\0';
      CutLine(s, copy[..], 0, line, end);
      headers.SetHeaderFromLine(copy, 0, APPEND);
    }
  }

  /**
    Parses the headers at the start of a message.  The message is as it was in the end, the result does
    not depend on how lines are recorded, and the body with its length ends where the message ends.
   */
  method ParseHTTPHeaders(a: array<char>, headers: HTTPHeaders?, inPlace: bool)
    returns (complete: bool, body: Option<nat>, bodylen: nat)
    requires Ready(headers, a[..], 0, 0)
    modifies a, headers
    ensures a[..] == old(a[..]) && (headers != null ==> headers.Valid())
    ensures a.Length == 0 ==> !complete && body.None? && bodylen == 0 && StoreOf(headers) == old(StoreOf(headers))
    ensures a.Length > 0 ==>
              && body.Some? && body.value + bodylen == a.Length
              && Parsed(complete, body.value, StoreOf(headers))
              == Parse(old(a[..]), 0, 0, old(StoreOf(headers)), headers != null)
  {
    if a.Length == 0 { return false, None, 0; }
    ghost var s, record := a[..], headers != null;
    ghost var p := Parse(s, 0, 0, StoreOf(headers), record);
    var num, line := 0, 0;
    while true
      invariant a[..] == s && Ready(headers, s, line, num) && Parse(s, line, num, StoreOf(headers), record) == p
      decreases a.Length - line
    {
      var r := ParseLine(a, line, num, headers, inPlace);
      if r.Stop? { return r.complete, Some(r.body), a.Length - r.body; }
      num, line := r.num, r.line;
    }
  }

  datatype LineResult = Stop(complete: bool, body: nat) | GoOn(line: nat, num: nat)

  /** One line: either it ends the headers, or the parser goes on behind it. */
  method ParseLine(a: array<char>, line: nat, num: nat, headers: HTTPHeaders?, inPlace: bool) returns (r: LineResult)
    requires Ready(headers, a[..], line, num)
    modifies a, headers
    ensures a[..] == old(a[..]) && (headers != null ==> headers.Valid())
    ensures r.Stop? ==> && r.body <= a.Length
                        && Parse(a[..], line, num, old(StoreOf(headers)), headers != null)
                           == Parsed(r.complete, r.body, StoreOf(headers))
    ensures r.GoOn? ==> && line < r.line <= a.Length && Ready(headers, a[..], r.line, r.num)
                        && Parse(a[..], line, num, old(StoreOf(headers)), headers != null)
                           == Parse(a[..], r.line, r.num, StoreOf(headers), headers != null)
  {
    var end := FindLineEnd(a, line);
    if end.None? { return Stop(false, if num == 0 then 0 else a.Length); }
    var e := end.value;
    var lf := Memchr(a, line, e, '\n');
    MemchrMeans(a[..], line, e, '\n');
    if num == 0 && lf.Some? { return Stop(false, 0); }
    if e == line { return Stop(true, e + 2); }
    var next := ConsumeLine(a, line, e, num, headers, inPlace);
    return if next.None? then Stop(false, 0) else GoOn(e + 2, next.value);
  }

  /** The number of headers after this line, unless it is no header and no status line either. */
  method ConsumeLine(a: array<char>, line: nat, e: nat, num: nat, headers: HTTPHeaders?, inPlace: bool)
    returns (next: Option<nat>)
    requires Ready(headers, a[..], line, num)
    requires LineEnd(a[..], line) == Some(e) && e != line && !(num == 0 && '\n' in a[..][line..e])
    modifies a, headers
    ensures a[..] == old(a[..]) && (headers != null ==> headers.Valid())
    ensures next.Some? ==> Ready(headers, a[..], e + 2, next.value)
    ensures Parse(a[..], line, num, old(StoreOf(headers)), headers != null)
         == if next.None? then Parsed(false, 0, StoreOf(headers))
            else Parse(a[..], e + 2, next.value, StoreOf(headers), headers != null)
  {
    var colon := Memchr(a, line, e, ':');
    MemchrMeans(a[..], line, e, ':');
    if num == 0 && colon.None? {
      if !LooksLikeStatus(a[..][line..e]) { return None; }
      if headers == null { return Some(1); }
      var good := headers.AddResponseFirstline(a[..][line..e]);
      return Some(if good then 1 else 0);
    }
    if headers != null { RecordLine(a, line, e, headers, inPlace); }
    return Some(num + 1);
  }

  lemma MemchrMeans(s: string, lo: nat, hi: nat, c: char)
    requires lo <= hi <= |s|
    ensures c in s[lo..hi] <==> exists j | lo <= j < hi :: s[j] == c
  {
    if c in s[lo..hi] {
      var j :| 0 <= j < hi - lo && s[lo..hi][j] == c;
      assert s[lo + j] == c;
    }
    if j :| lo <= j < hi && s[j] == c { assert s[lo..hi][j - lo] == c; }
  }

  /** The line in t is the one in s, with a NUL at its end. */
  lemma CutLine(s: string, t: string, at: nat, line: nat, end: nat)
    requires line <= end < |s| && at + (end - line) < |t|
    requires t[at..at + (end - line)] == s[line..end] && t[at + (end - line)] == '\0'
    ensures Terminated(t, at) && CharsAt(t, at) == CString(s[line..end])
  {
    var n := end - line;
    var text := s[line..end];
    assert text == text[0..n];
    var e := CharsAtShape(text, 0);
    forall j | 0 <= j < e ensures t[at + j] == text[j] { assert t[at..at + n][j] == text[j]; }
    if e < n { assert t[at + e] == t[at..at + n][e]; }
    assert forall j | at <= j < at + e :: t[j] == text[j - at];
    CharsAtEnd(t, at, at + e);
    assert t[at..at + e] == text[0..e];
  }

  /** A line is its key, with spaces, its first colon and the rest. */
  lemma ColonSplits(s: string, line: nat, colon: nat)
    requires line <= colon < |s| && s[colon] == ':' && !Blank(s[line]) && Terminated(s, colon)
    requires ':' !in s[line..colon] && '\0' !in s[line..colon]
    ensures var text := CharsAt(s, line);
            && text != "" && !Blank(text[0]) && ':' in text && Terminated(s, colon + 1)
            && LineKey(text) == TrimSpaces(s[line..colon])
            && LineValue(text) == SkipSpaces(CharsAt(s, colon + 1))
  {
    var text, key, rest := CharsAt(s, line), s[line..colon], CharsAt(s, colon + 1);
    assert text == key + ([':'] + rest) by {
      CharsAtSplit(s, line, colon);
      assert CharsAt(s, colon) == [':'] + rest;
    }
    assert text != "" && text[0] == s[line] && ':' in text && LineKey(text) == TrimSpaces(key)
        && LineValue(text) == SkipSpaces(rest) by { KeyColonRest(key, rest); }
  }

  lemma KeyColonRest(key: string, rest: string)
    requires ':' !in key
    ensures var text := key + ([':'] + rest);
            && text != "" && text[0] == (if key == "" then ':' else key[0]) && ':' in text
            && LineKey(text) == TrimSpaces(key) && LineValue(text) == SkipSpaces(rest)
  {
    var text := key + ([':'] + rest);
    assert text[|key|] == ':' && text[..|key|] == key && text[|key| + 1..] == rest;
    IndexOfAfter(key, ':', rest);
  }

  lemma LineSets(hs: seq<Entry>, text: string, key: string, value: string, overwrite: Overwrite)
    requires text != "" && !Blank(text[0]) && ':' in text && LineKey(text) == key && LineValue(text) == value
    ensures SetFromLine(hs, text, overwrite) == Set(hs, key, Some(value), LineMode(key, overwrite))
  {
  }

  lemma {:induction false} CharsAtSplit(s: string, i: nat, j: nat)
    requires i <= j <= |s| && '\0' !in s[i..j]
    ensures CharsAt(s, i) == s[i..j] + CharsAt(s, j)
    decreases j - i
  {
    if i < j {
      assert s[i..j] == [s[i]] + s[i + 1..j];
      CharsAtSplit(s, i + 1, j);
    }
  }

  /** What is seen after the end of the key was overwritten by a NUL. */
  lemma CutShows(s: string, t: string, line: nat, end: nat, colon: nat)
    requires line <= end <= colon < |s| && t == s[end := '\0'] && '\0' !in s[line..colon] && Terminated(s, colon + 1)
    ensures CharsAt(t, line) == s[line..end] && CharsAt(t, colon + 1) == CharsAt(s, colon + 1)
    ensures Terminated(t, line) && Terminated(t, colon + 1)
  {
    assert forall j | line <= j < end :: s[j] == s[line..colon][j - line];
    CharsAtEnd(t, line, end);
    assert t[line..end] == s[line..end];
    CharsAtFrame(s, t, colon + 1);
    assert t[end] == '\0';
    var j :| colon + 1 <= j < |s| && s[j] == '\0';
    assert t[j] == '\0';
  }

  /** What is left when the headers from i on have been cleared too. */
  ghost function Swept(hs: seq<Entry>, i: nat, key: string): seq<Entry>
    requires i <= |hs|
  {
    hs[..i] + Cleared(hs[i..], key)
  }

  lemma SweptEnds(hs: seq<Entry>, key: string)
    ensures Swept(hs, 0, key) == Cleared(hs, key) && Swept(hs, |hs|, key) == hs
  {
    assert hs[0..] == hs;
  }

  lemma ClearStep(hs: seq<Entry>, i: nat, key: string)
    requires i < |hs|
    ensures Swept(hs, i, key)
         == if SameName(hs[i].key, key) then Swept(hs[..i] + hs[i + 1..], i, key) else Swept(hs, i + 1, key)
  {
    var hs' := hs[..i] + hs[i + 1..];
    assert hs[i..][1..] == hs[i + 1..] == hs'[i..];
    assert hs'[..i] == hs[..i] && hs[..i + 1] == hs[..i] + [hs[i]];
  }

  lemma ClearedIsSame(hs: seq<Entry>, key: string)
    ensures Cleared(hs, key) == hs <==> Find(hs, key) == |hs|
  {
    ClearedIsRemoval(hs, key);
    if Find(hs, key) == |hs| { ClearedAbsent(hs, key); }
  }

  /** Headers and a body, printed by one store and parsed by another: they arrive exactly if lines can carry them. */
  method SendHeaders(from: HTTPHeaders, body: string, inPlace: bool)
    returns (to: HTTPHeaders, complete: bool, received: string)
    requires NoNulls(from.headers)
    modifies from
    ensures (complete && received == body && StoreOf(to) == Store(old(from.headers), Status("", HTTP_ERROR, 0, "")))
       <==> Printable(old(from.headers))
  {
    ghost var hs := from.headers;
    var text := from.GenerateHeaderString();
    text := text + body;
    var a := new char[|text|](i requires 0 <= i < |text| => text[i]);
    assert a[..] == text == Print(hs) + body;
    to := new HTTPHeaders();
    ghost var st := to.status;
    LastValueIsSafe(a[..], 0, 0, StoreOf(to));
    var start, length;
    complete, start, length := ParseHTTPHeaders(a, to, inPlace);
    received := a[start.value..];
    BodyIsLast(text, Print(hs), body, start.value);
    PrintThenParse(hs, body, st);
  }

  lemma BodyIsLast(text: string, head: string, body: string, start: nat)
    requires text == head + body && start <= |text|
    ensures text[start..] == body <==> start == |head|
  {
    if start != |head| { assert |text[start..]| != |body|; }
  }
}
