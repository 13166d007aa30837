/**
  What is printed parses back to the same list, exactly when lines can carry the list.
 */
module HttpRoundTrip {
  import opened Basics
  import opened CStrings
  import opened HttpHeaders
  import opened HttpText

  // ---------------------------------------------------------------------------------------------
  // What lines can carry
  // ---------------------------------------------------------------------------------------------

  ghost predicate CrLf(s: string, j: nat) {
    j + 1 < |s| && s[j] == '\r' && s[j + 1] == '\n'
  }

  /** No line ends within the string. */
  ghost predicate OneLine(s: string) {
    forall j: nat :: !CrLf(s, j)
  }

  ghost predicate KeyOk(k: string) {
    ':' !in k && '\0' !in k && OneLine(k) && (k != "" ==> !Blank(k[0]) && k[|k| - 1] != ' ')
  }

  /** A value that a line shows; it may still hold a CR or LF that will be replaced. */
  ghost predicate ValueShown(v: string) {
    '\0' !in v && OneLine(v) && (v != "" ==> v[0] != ' ')
  }

  ghost predicate EntryShown(e: Entry) {
    e.value.Some? && KeyOk(e.key) && ValueShown(e.value.value)
  }

  ghost predicate AllShown(hs: seq<Entry>) {
    forall i | 0 <= i < |hs| :: EntryShown(hs[i])
  }

  /** The lists that survive; the first line must not hold an LF at all. */
  ghost predicate Printable(hs: seq<Entry>) {
    && AllShown(hs) && Unique(hs)
    && (forall i | 0 <= i < |hs| :: NoLineEnds(hs[i].value.value))
    && (hs != [] ==> '\n' !in hs[0].key)
  }

  lemma OneLineAppend(a: string, b: string)
    requires OneLine(a) && OneLine(b) && !(a != "" && b != "" && a[|a| - 1] == '\r' && b[0] == '\n')
    ensures OneLine(a + b)
  {
    forall j: nat ensures !CrLf(a + b, j) {
      if j + 1 < |a| {
        assert !CrLf(a, j);
      } else if j >= |a| {
        assert !CrLf(b, j - |a|);
      }
    }
  }

  lemma OneLinePart(s: string, i: nat, j: nat)
    requires OneLine(s) && i <= j <= |s|
    ensures OneLine(s[i..j])
  {
    forall k: nat ensures !CrLf(s[i..j], k) { assert !CrLf(s, i + k); }
  }

  // ---------------------------------------------------------------------------------------------
  // What is printed
  // ---------------------------------------------------------------------------------------------

  /** The text: for each header, in order, its name, a colon, a space, its value and CR LF; then CR LF. */
  lemma PrintMeans(hs: seq<Entry>, key: string, value: string)
    requires NoNulls(hs)
    ensures Print([]) == "\r\n"
    ensures var text := Print(hs);
            && |text| >= 2 && text[|text| - 2..] == "\r\n"
            && Print(hs + [Entry(key, Some(value))]) == text[..|text| - 2] + key + ": " + value + "\r\n" + "\r\n"
  {
    LinesOneMore(hs, Entry(key, Some(value)));
    assert Print(hs)[..|Print(hs)| - 2] == Lines(hs);
  }

  lemma {:induction false} LinesOneMore(hs: seq<Entry>, e: Entry)
    requires NoNulls(hs) && e.value.Some?
    ensures Lines(hs + [e]) == Lines(hs) + Line(e)
  {
    if hs == [] {
      assert hs + [e] == [e] && [e][1..] == [];
    } else {
      assert (hs + [e])[1..] == hs[1..] + [e];
      LinesOneMore(hs[1..], e);
    }
  }

  // ---------------------------------------------------------------------------------------------
  // One line
  // ---------------------------------------------------------------------------------------------

  lemma {:induction false} LineEndAt(s: string, i: nat, e: nat)
    requires i <= e && CrLf(s, e) && forall j | i <= j < e :: !CrLf(s, j)
    ensures LineEnd(s, i) == Some(e)
    decreases e - i
  {
    if i < e {
      assert !CrLf(s, i);
      LineEndAt(s, i + 1, e);
    }
  }

  lemma {:induction false} LineEndIsFirst(s: string, i: nat, j: nat)
    requires LineEnd(s, i).Some? && i <= j < LineEnd(s, i).value
    ensures !CrLf(s, j)
    decreases |s| - i
  {
    if i < j { LineEndIsFirst(s, i + 1, j); }
  }

  lemma SkipSpacesNone(s: string)
    requires s != "" ==> s[0] != ' '
    ensures SkipSpaces(s) == s && SkipSpaces(" " + s) == s
  {
    assert (" " + s)[1..] == s;
  }

  lemma TextParts(k: string, v: string)
    requires ':' !in k
    ensures IndexOf(Text(k, v), ':') == |k| && Text(k, v)[..|k|] == k && Text(k, v)[|k| + 1..] == " " + v
  {
    assert Text(k, v) == k + ([':'] + (" " + v));
    IndexOfAfter(k, ':', " " + v);
  }

  lemma TextChars(k: string, v: string)
    requires KeyOk(k) && ValueShown(v)
    ensures ':' in Text(k, v) && '\0' !in Text(k, v) && OneLine(Text(k, v)) && !Blank(Text(k, v)[0])
    ensures '\n' in Text(k, v) <==> '\n' in k || '\n' in v
  {
    var text := Text(k, v);
    assert text[|k|] == ':';
    assert text == k + (": " + v);
    assert OneLine(": ");
    OneLineAppend(": ", v);
    OneLineAppend(k, ": " + v);
    if '\n' in v {
      var i :| 0 <= i < |v| && v[i] == '\n';
      assert text[|k| + 2 + i] == '\n';
    }
    if '\n' in k {
      var i :| 0 <= i < |k| && k[i] == '\n';
      assert text[i] == '\n';
    }
  }

  /** What the text of a line, without its end, is read as. */
  lemma LineReads(k: string, v: string)
    requires KeyOk(k) && ValueShown(v)
    ensures CString(Text(k, v)) == Text(k, v) && ':' in Text(k, v) && !Blank(Text(k, v)[0])
    ensures LineKey(Text(k, v)) == k && LineValue(Text(k, v)) == v
  {
    TextChars(k, v);
    TextParts(k, v);
    CStringIsWhole(Text(k, v));
    SkipSpacesNone(v);
  }

  /** The text stands at that place in s. */
  ghost predicate At(s: string, i: nat, text: string) {
    i + |text| <= |s| && s[i..i + |text|] == text
  }

  lemma AtParts(s: string, i: nat, a: string, b: string)
    requires At(s, i, a + b)
    ensures At(s, i, a) && At(s, i + |a|, b)
  {
    assert s[i..i + |a|] == (a + b)[..|a|];
    assert s[i + |a|..i + |a + b|] == (a + b)[|a|..];
  }

  lemma CrLfAt(s: string, i: nat)
    requires At(s, i, "\r\n")
    ensures CrLf(s, i) && LineEnd(s, i) == Some(i)
  {
    assert s[i] == s[i..i + 2][0] && s[i + 1] == s[i..i + 2][1];
  }

  lemma TextEnd(s: string, at: nat, text: string)
    requires At(s, at, text) && At(s, at + |text|, "\r\n") && OneLine(text)
    ensures LineEnd(s, at) == Some(at + |text|)
  {
    var e := at + |text|;
    CrLfAt(s, e);
    forall j | at <= j < e ensures !CrLf(s, j) {
      assert !CrLf(text, j - at);
      assert s[j] == text[j - at] && (j + 1 < e ==> s[j + 1] == text[j + 1 - at]);
    }
    LineEndAt(s, at, e);
  }

  // ---------------------------------------------------------------------------------------------
  // The parser's steps
  // ---------------------------------------------------------------------------------------------

  ghost function Rest(s: string, at: nat, num: nat, hs: seq<Entry>, status: Status): Parsed {
    Parse(s, at, num, Store(hs, status), true)
  }

  lemma ParseBlankLine(s: string, at: nat, num: nat, hs: seq<Entry>, status: Status)
    requires At(s, at, "\r\n")
    ensures Rest(s, at, num, hs, status) == Parsed(true, at + 2, Store(hs, status))
  {
    CrLfAt(s, at);
  }

  lemma HeaderLine(s: string, at: nat, e: nat, text: string, to: nat, num: nat, hs: seq<Entry>,
                                      hs': seq<Entry>, status: Status)
    requires LineEnd(s, at) == Some(e) && s[at..e] == text && to == e + 2
    requires ':' in text && CString(text) == text && !(num == 0 && '\n' in text)
    requires hs' == SetFromLine(hs, text, APPEND)
    ensures Rest(s, at, num, hs, status) == Rest(s, to, num + 1, hs', status)
  {
  }

  lemma FirstLineWithLf(s: string, at: nat, e: nat, hs: seq<Entry>, status: Status)
    requires LineEnd(s, at) == Some(e) && '\n' in s[at..e]
    ensures !Rest(s, at, 0, hs, status).complete
  {
  }

  /** A line is read whole, unless it comes first and holds an LF. */
  lemma TextIsRead(s: string, at: nat, e: nat, to: nat, num: nat, hs: seq<Entry>, hs': seq<Entry>,
                                      text: string, status: Status)
    requires At(s, at, text) && At(s, e, "\r\n") && e == at + |text| && to == e + 2
    requires OneLine(text) && ':' in text && CString(text) == text && hs' == SetFromLine(hs, text, APPEND)
    ensures num == 0 && '\n' in text ==> !Rest(s, at, num, hs, status).complete
    ensures !(num == 0 && '\n' in text) ==> Rest(s, at, num, hs, status) == Rest(s, to, num + 1, hs', status)
  {
    assert LineEnd(s, at) == Some(e) by { TextEnd(s, at, text); }
    if num == 0 && '\n' in text {
      FirstLineWithLf(s, at, e, hs, status);
    } else {
      HeaderLine(s, at, e, text, to, num, hs, hs', status);
    }
  }

  lemma TextOfEntry(s: string, at: nat, to: nat, e: Entry, text: string) returns (end: nat)
    requires EntryShown(e) && At(s, at, Line(e)) && to == at + |Line(e)| && text == Text(e.key, e.value.value)
    ensures OneLine(text) && ':' in text && CString(text) == text
    ensures end == at + |text| && to == end + 2 && At(s, at, text) && At(s, end, "\r\n")
  {
    LineReads(e.key, e.value.value);
    TextChars(e.key, e.value.value);
    AtParts(s, at, text, "\r\n");
    end := at + |text|;
  }

  /** The line of an entry is read as one line of the message. */
  lemma EntryIsRead(s: string, at: nat, to: nat, num: nat, hs: seq<Entry>, hs': seq<Entry>,
                                       e: Entry, text: string, status: Status)
    requires EntryShown(e) && At(s, at, Line(e)) && to == at + |Line(e)|
    requires text == Text(e.key, e.value.value) && hs' == SetFromLine(hs, text, APPEND)
    ensures num == 0 && '\n' in text ==> !Rest(s, at, num, hs, status).complete
    ensures !(num == 0 && '\n' in text) ==> Rest(s, at, num, hs, status) == Rest(s, to, num + 1, hs', status)
  {
    var end := TextOfEntry(s, at, to, e, text);
    TextIsRead(s, at, end, to, num, hs, hs', text, status);
  }

  // ---------------------------------------------------------------------------------------------
  // A line adds at most one entry
  // ---------------------------------------------------------------------------------------------

  /** The entries as a parser would store them. */
  ghost function CleanEntry(e: Entry): Entry {
    Entry(e.key, CleanValue(e.value))
  }

  /** Nothing before the entry has its name, or it may be repeated. */
  ghost predicate NewName(hs: seq<Entry>, key: string) {
    MultiLine(key) || Find(hs, key) == |hs|
  }

  ghost function CleanList(hs: seq<Entry>): seq<Entry> {
    seq(|hs|, i requires 0 <= i < |hs| => CleanEntry(hs[i]))
  }

  ghost predicate AllNew(hs: seq<Entry>, todo: seq<Entry>)
    decreases |todo|
  {
    todo == [] || (NewName(hs, todo[0].key) && AllNew(hs + [todo[0]], todo[1..]))
  }

  lemma SetGrows(hs: seq<Entry>, key: string, v: Option<string>, overwrite: Overwrite, multi: bool)
    requires !(multi && overwrite == OVERWRITE)
    ensures |SetIn(hs, key, v, overwrite, multi)| <= |hs| + 1
    ensures |SetIn(hs, key, v, overwrite, multi)| == |hs| + 1 ==>
              SetIn(hs, key, v, overwrite, multi) == hs + [Entry(key, v)] && (multi || Find(hs, key) == |hs|)
  {
  }

  lemma HostIsNotMultiLine(k: string)
    requires MultiLine(k)
    ensures !SameName(k, "host")
  {
    assert |Lower(k)| == |k| && |Lower("host")| == 4;
  }

  lemma EntryGrows(hs: seq<Entry>, e: Entry, text: string)
    requires EntryShown(e) && text == Text(e.key, e.value.value)
    ensures var hs' := SetFromLine(hs, text, APPEND);
            && |hs'| <= |hs| + 1
            && (|hs'| == |hs| + 1 <==> NewName(hs, e.key))
            && (|hs'| == |hs| + 1 ==> hs' == hs + [CleanEntry(e)])
  {
    LineReads(e.key, e.value.value);
    SetGrows(hs, e.key, CleanValue(e.value), LineMode(e.key, APPEND), MultiLine(e.key));
    if NewName(hs, e.key) {
      if MultiLine(e.key) { HostIsNotMultiLine(e.key); }
      MadeEntry(hs, text, APPEND);
    }
  }

  // ---------------------------------------------------------------------------------------------
  // A printed list comes back
  // ---------------------------------------------------------------------------------------------

  lemma PrintSplits(s: string, at: nat, todo: seq<Entry>)
    requires NoNulls(todo) && todo != [] && At(s, at, Print(todo))
    ensures At(s, at, Line(todo[0])) && At(s, at + |Line(todo[0])|, Print(todo[1..]))
    ensures |Print(todo)| == |Line(todo[0])| + |Print(todo[1..])|
  {
    assert Print(todo) == Line(todo[0]) + Print(todo[1..]);
    AtParts(s, at, Line(todo[0]), Print(todo[1..]));
  }

  lemma ShownTail(todo: seq<Entry>)
    requires AllShown(todo)
    ensures NoNulls(todo)
    ensures todo != [] ==> EntryShown(todo[0]) && AllShown(todo[1..]) && NoNulls(todo[1..])
  {
    forall i | 0 <= i < |todo| ensures todo[i].value.Some? { assert EntryShown(todo[i]); }
    if todo != [] {
      forall i | 0 <= i < |todo[1..]| ensures EntryShown(todo[1..][i]) { assert EntryShown(todo[i + 1]); }
    }
  }

  lemma NothingLeft(s: string, at: nat, to: nat, num: nat, hs: seq<Entry>, status: Status)
    requires At(s, at, Print([])) && to == at + |Print([])|
    ensures Rest(s, at, num, hs, status) == Parsed(true, to, Store(hs, status))
  {
    assert Print([]) == "\r\n";
    ParseBlankLine(s, at, num, hs, status);
  }

  /** Cleaned entries with new names are appended one by one. */
  lemma {:induction false} NewNamesAreAppended(s: string, at: nat, to: nat, num: nat, hs: seq<Entry>,
                                               todo: seq<Entry>, all: seq<Entry>, status: Status)
    requires AllShown(todo) && NoNulls(todo) && AllNew(hs, todo) && CleanList(todo) == todo
    requires At(s, at, Print(todo)) && to == at + |Print(todo)| && all == hs + todo
    requires num == 0 && todo != [] ==> '\n' !in todo[0].key
    ensures Rest(s, at, num, hs, status) == Parsed(true, to, Store(all, status))
    decreases |todo|
  {
    if todo == [] {
      assert all == hs;
      NothingLeft(s, at, to, num, hs, status);
    } else {
      var mid, hs' := at + |Line(todo[0])|, hs + [todo[0]];
      FirstIsAppended(s, at, mid, num, hs, hs', todo, todo[1..], status);
      NewNamesAreAppended(s, mid, to, num + 1, hs', todo[1..], all, status);
    }
  }

  lemma FirstIsAppended(s: string, at: nat, mid: nat, num: nat, hs: seq<Entry>, hs': seq<Entry>,
                                           todo: seq<Entry>, rest: seq<Entry>, status: Status)
    requires AllShown(todo) && NoNulls(todo) && todo != [] && NewName(hs, todo[0].key) && CleanList(todo) == todo
    requires At(s, at, Print(todo)) && mid == at + |Line(todo[0])| && hs' == hs + [todo[0]] && rest == todo[1..]
    requires num == 0 ==> '\n' !in todo[0].key
    ensures AllShown(rest) && NoNulls(rest) && CleanList(rest) == rest
    ensures At(s, mid, Print(rest)) && at + |Print(todo)| == mid + |Print(rest)| && hs + todo == hs' + rest
    ensures Rest(s, at, num, hs, status) == Rest(s, mid, num + 1, hs', status)
  {
    TailIsPrinted(s, at, mid, todo, rest);
    assert CleanEntry(todo[0]) == todo[0] && CleanList(rest) == rest by { CleanTail(todo); }
    NewEntryIsRead(s, at, mid, num, hs, hs', todo[0], status);
  }

  lemma NewEntryIsRead(s: string, at: nat, mid: nat, num: nat, hs: seq<Entry>, hs': seq<Entry>,
                                          e: Entry, status: Status)
    requires EntryShown(e) && NewName(hs, e.key) && CleanEntry(e) == e
    requires At(s, at, Line(e)) && mid == at + |Line(e)| && hs' == hs + [e]
    requires num == 0 ==> '\n' !in e.key
    ensures Rest(s, at, num, hs, status) == Rest(s, mid, num + 1, hs', status)
  {
    var text := Text(e.key, e.value.value);
    assert hs' == SetFromLine(hs, text, APPEND) by { EntryGrows(hs, e, text); }
    assert '\n' in text ==> '\n' in e.key by { TextChars(e.key, e.value.value); CleanKeeps(e.value.value); }
    EntryIsRead(s, at, mid, num, hs, hs', e, text, status);
  }

  lemma CleanTail(todo: seq<Entry>)
    requires todo != []
    ensures CleanList(todo) == [CleanEntry(todo[0])] + CleanList(todo[1..])
    ensures CleanList(todo) == todo ==> CleanEntry(todo[0]) == todo[0] && CleanList(todo[1..]) == todo[1..]
  {
    assert CleanList(todo)[1..] == CleanList(todo[1..]);
    assert CleanList(todo)[0] == CleanEntry(todo[0]);
  }

  // ---------------------------------------------------------------------------------------------
  // Only such a list comes back
  // ---------------------------------------------------------------------------------------------

  /** A complete parse finds at most as many headers as were printed, and as many only if all were new. */
  lemma {:induction false} CountForcesNewNames(s: string, at: nat, num: nat, hs: seq<Entry>, todo: seq<Entry>,
                                               p: Parsed, status: Status)
    requires AllShown(todo) && NoNulls(todo) && At(s, at, Print(todo))
    requires p == Rest(s, at, num, hs, status) && p.complete
    ensures |p.store.headers| <= |hs| + |todo|
    ensures |p.store.headers| == |hs| + |todo| ==>
              p.store.headers == hs + CleanList(todo) && AllNew(hs, CleanList(todo))
    ensures num == 0 && todo != [] ==> '\n' !in todo[0].key
    decreases |todo|
  {
    if todo == [] {
      NothingLeft(s, at, at + |Print([])|, num, hs, status);
      assert hs + CleanList(todo) == hs;
    } else {
      var mid := at + |Line(todo[0])|;
      TailIsPrinted(s, at, mid, todo, todo[1..]);
      var hs' := NextEntryIsRead(s, at, mid, num, hs, todo[0], p, status);
      CountForcesNewNames(s, mid, num + 1, hs', todo[1..], p, status);
      if |p.store.headers| == |hs| + |todo| { JoinNew(hs, hs', todo); }
    }
  }

  lemma TailIsPrinted(s: string, at: nat, mid: nat, todo: seq<Entry>, rest: seq<Entry>)
    requires AllShown(todo) && NoNulls(todo) && todo != [] && At(s, at, Print(todo))
    requires mid == at + |Line(todo[0])| && rest == todo[1..]
    ensures EntryShown(todo[0]) && At(s, at, Line(todo[0]))
    ensures AllShown(rest) && NoNulls(rest) && At(s, mid, Print(rest)) && at + |Print(todo)| == mid + |Print(rest)|
  {
    ShownTail(todo);
    PrintSplits(s, at, todo);
  }

  lemma JoinNew(hs: seq<Entry>, hs': seq<Entry>, todo: seq<Entry>)
    requires todo != [] && hs' == hs + [CleanEntry(todo[0])] && NewName(hs, todo[0].key)
    requires AllNew(hs', CleanList(todo[1..]))
    ensures hs' + CleanList(todo[1..]) == hs + CleanList(todo) && AllNew(hs, CleanList(todo))
  {
    CleanTail(todo);
    assert CleanList(todo)[1..] == CleanList(todo[1..]);
  }

  lemma NextEntryIsRead(s: string, at: nat, mid: nat, num: nat, hs: seq<Entry>, e: Entry,
                                           p: Parsed, status: Status)
    returns (hs': seq<Entry>)
    requires EntryShown(e) && At(s, at, Line(e)) && mid == at + |Line(e)|
    requires p == Rest(s, at, num, hs, status) && p.complete
    ensures p == Rest(s, mid, num + 1, hs', status)
    ensures num == 0 ==> '\n' !in e.key
    ensures |hs'| <= |hs| + 1
    ensures |hs'| == |hs| + 1 ==> hs' == hs + [CleanEntry(e)] && NewName(hs, e.key)
  {
    var text := Text(e.key, e.value.value);
    hs' := SetFromLine(hs, text, APPEND);
    EntryIsRead(s, at, mid, num, hs, hs', e, text, status);
    assert '\n' in e.key ==> '\n' in text by { TextChars(e.key, e.value.value); }
    EntryGrows(hs, e, text);
  }

  lemma {:induction false} AllNewIsUnique(hs: seq<Entry>, todo: seq<Entry>)
    requires Unique(hs)
    ensures AllNew(hs, todo) <==> Unique(hs + todo)
    decreases |todo|
  {
    if todo == [] {
      assert hs + todo == hs;
    } else {
      var hs' := hs + [todo[0]];
      assert hs + todo == hs' + todo[1..];
      if NewName(hs, todo[0].key) {
        AppendKeepsUnique(hs, todo[0]);
        AllNewIsUnique(hs', todo[1..]);
      } else {
        var i := Find(hs, todo[0].key);
        assert (hs + todo)[i] == hs[i] && (hs + todo)[|hs|] == todo[0];
        SameNameSameKind(hs[i].key, todo[0].key);
      }
    }
  }

  lemma SameNameSameKind(a: string, b: string)
    requires SameName(a, b)
    ensures MultiLine(a) <==> MultiLine(b)
  {
  }

  // ---------------------------------------------------------------------------------------------
  // What a parser stores, lines can show
  // ---------------------------------------------------------------------------------------------

  lemma {:induction false} SkipBlanksShape(s: string) returns (k: nat)
    ensures k <= |s| && SkipBlanks(s) == s[k..] && (k < |s| ==> !Blank(s[k]))
  {
    if s != "" && Blank(s[0]) {
      var j := SkipBlanksShape(s[1..]);
      k := j + 1;
    } else {
      k := 0;
    }
  }

  lemma {:induction false} SkipSpacesShape(s: string) returns (k: nat)
    ensures k <= |s| && SkipSpaces(s) == s[k..] && (k < |s| ==> s[k] != ' ')
  {
    if s != "" && s[0] == ' ' {
      var j := SkipSpacesShape(s[1..]);
      k := j + 1;
    } else {
      k := 0;
    }
  }

  lemma {:induction false} TrimSpacesShape(s: string) returns (k: nat)
    ensures k <= |s| && TrimSpaces(s) == s[..k] && (k > 0 ==> s[k - 1] != ' ')
  {
    if s != "" && s[|s| - 1] == ' ' {
      k := TrimSpacesShape(s[..|s| - 1]);
      assert s[..|s| - 1][..k] == s[..k];
    } else {
      k := |s|;
    }
  }

  lemma {:induction false} IndexOfIsFirst(s: string, c: char)
    ensures c !in s[..IndexOf(s, c)]
  {
    if s != "" && s[0] != c {
      IndexOfIsFirst(s[1..], c);
      assert s[..IndexOf(s, c)] == [s[0]] + s[1..][..IndexOf(s[1..], c)];
    }
  }

  lemma CleanIsShown(v: string)
    requires '\0' !in v && (v != "" ==> v[0] != ' ')
    ensures ValueShown(Clean(v))
  {
    forall j: nat ensures !CrLf(Clean(v), j) {}
    if '\0' in Clean(v) {
      var j :| 0 <= j < |v| && Clean(v)[j] == '\0';
      assert v[j] == '\0';
    }
  }

  lemma JoinIsShown(a: string, separator: string, b: string)
    requires ValueShown(a) && '\0' !in b && OneLine(b)
    requires separator == "," || (separator == Separator(a, b) && (b != "" ==> b[0] != ' '))
    ensures ValueShown(a + separator + b)
  {
    forall j: nat ensures !CrLf(a + separator + b, j) {
      if j + 1 < |a| { assert !CrLf(a, j); }
      if j >= |a + separator| { assert !CrLf(b, j - |a + separator|); }
    }
  }

  lemma SetIsShown(hs: seq<Entry>, key: string, v: string, overwrite: Overwrite, multi: bool)
    requires AllShown(hs) && KeyOk(key) && ValueShown(v) && overwrite != OVERWRITE
    ensures AllShown(SetIn(hs, key, Some(v), overwrite, multi))
  {
    var hs', i := SetIn(hs, key, Some(v), overwrite, multi), Find(hs, key);
    if i < |hs| && !(multi && overwrite == APPEND) {
      assert EntryShown(hs[i]);
      JoinIsShown(hs[i].value.value, ",", v);
      assert EntryShown(hs'[i]);
    } else {
      assert EntryShown(Entry(key, Some(v)));
    }
    forall j | 0 <= j < |hs'| ensures EntryShown(hs'[j]) {
      if j < |hs| { assert EntryShown(hs[j]); }
    }
  }

  lemma KeyIsShown(line: string)
    requires OneLine(line) && '\0' !in line && ':' in line && !Blank(line[0])
    ensures KeyOk(LineKey(line))
  {
    var i := IndexOf(line, ':');
    IndexOfIsFirst(line, ':');
    var k := TrimSpacesShape(line[..i]);
    assert line[..i][..k] == line[0..k];
    OneLinePart(line, 0, k);
  }

  lemma ValueIsShown(line: string)
    requires '\0' !in line && ':' in line
    ensures ValueShown(Clean(LineValue(line)))
  {
    var k := SkipSpacesShape(line[IndexOf(line, ':') + 1..]);
    CleanIsShown(LineValue(line));
  }

  lemma ContinuedIsShown(hs: seq<Entry>, line: string)
    requires AllShown(hs) && OneLine(line) && '\0' !in line
    ensures AllShown(Continued(hs, SkipBlanks(line)))
  {
    if hs != [] {
      var last, more := hs[|hs| - 1], SkipBlanks(line);
      assert EntryShown(last);
      var k := SkipBlanksShape(line);
      OneLinePart(line, k, |line|);
      assert line[k..] == line[k..|line|];
      JoinIsShown(last.value.value, Separator(last.value.value, more), more);
      var hs' := Continued(hs, more);
      forall j | 0 <= j < |hs'| ensures EntryShown(hs'[j]) { assert EntryShown(hs[j]); }
    }
  }

  lemma LineIsShown(hs: seq<Entry>, line: string)
    requires AllShown(hs) && OneLine(line) && '\0' !in line
    ensures AllShown(SetFromLine(hs, line, APPEND))
  {
    if line != "" && Blank(line[0]) {
      ContinuedIsShown(hs, line);
    } else if ':' in line {
      var key := LineKey(line);
      KeyIsShown(line);
      ValueIsShown(line);
      SetIsShown(hs, key, Clean(LineValue(line)), LineMode(key, APPEND), MultiLine(key));
    }
  }

  lemma {:induction false} ParseIsShown(s: string, line: nat, num: nat, st: Store)
    requires AllShown(st.headers)
    ensures AllShown(Parse(s, line, num, st, true).store.headers)
    decreases |s| - line
  {
    var next, num', st' := NextLine(s, line, num, st);
    if line < next { ParseIsShown(s, next, num', st'); }
  }

  /** Where the parser goes on, if it does not stop with what it has. */
  lemma NextLine(s: string, line: nat, num: nat, st: Store)
    returns (next: nat, num': nat, st': Store)
    requires AllShown(st.headers)
    ensures AllShown(st'.headers)
    ensures if line < next then next <= |s| && Parse(s, line, num, st, true) == Parse(s, next, num', st', true)
            else Parse(s, line, num, st, true).store == st
  {
    next, num', st' := line, num, st;
    var p := Parse(s, line, num, st, true);
    if LineEnd(s, line).Some? && p.store != st {
      var e := LineEnd(s, line).value;
      var text := s[line..e];
      next := e + 2;
      if num == 0 && ':' !in text {
        var status := WithFirstline(st.status, text);
        num', st' := if status.1 then 1 else 0, st.(status := status.0);
      } else {
        var hs' := LineResult(s, line, e, st.headers, text);
        num', st' := num + 1, st.(headers := hs');
      }
    }
  }

  lemma LineResult(s: string, line: nat, e: nat, hs: seq<Entry>, text: string)
    returns (hs': seq<Entry>)
    requires AllShown(hs) && LineEnd(s, line) == Some(e) && text == s[line..e]
    ensures hs' == SetFromLine(hs, CString(text), APPEND) && AllShown(hs')
  {
    TextIsShown(s, line, e);
    LineIsShown(hs, CString(text));
    hs' := SetFromLine(hs, CString(text), APPEND);
  }

  lemma TextIsShown(s: string, line: nat, e: nat)
    requires LineEnd(s, line) == Some(e)
    ensures OneLine(CString(s[line..e])) && '\0' !in CString(s[line..e])
  {
    var text := s[line..e];
    forall j: nat ensures !CrLf(text, j) {
      if j + 1 < |text| { LineEndIsFirst(s, line, line + j); }
    }
    var k := CharsAtShape(text, 0);
    OneLinePart(text, 0, k);
  }

  // ---------------------------------------------------------------------------------------------
  // The theorem
  // ---------------------------------------------------------------------------------------------

  /**
    Print then parse: the text of a list, followed by any body, parses to the same list with the body
    right behind it, exactly when lines can carry the list.
   */
  lemma PrintThenParse(hs: seq<Entry>, body: string, status: Status)
    requires NoNulls(hs)
    ensures Parse(Print(hs) + body, 0, 0, Store([], status), true) == Parsed(true, |Print(hs)|, Store(hs, status))
       <==> Printable(hs)
  {
    var s, to := Print(hs) + body, |Print(hs)|;
    assert At(s, 0, Print(hs));
    if Printable(hs) { PrintableComesBack(s, to, hs, status); }
    if Rest(s, 0, 0, [], status) == Parsed(true, to, Store(hs, status)) {
      ParseIsShown(s, 0, 0, Store([], status));
      OnlyPrintableComesBack(s, hs, status);
    }
  }

  lemma PrintableComesBack(s: string, to: nat, hs: seq<Entry>, status: Status)
    requires NoNulls(hs) && Printable(hs) && At(s, 0, Print(hs)) && to == |Print(hs)|
    ensures Rest(s, 0, 0, [], status) == Parsed(true, to, Store(hs, status))
  {
    assert [] + hs == hs;
    AllNewIsUnique([], hs);
    CleanListKeeps(hs);
    NewNamesAreAppended(s, 0, to, 0, [], hs, hs, status);
  }

  lemma OnlyPrintableComesBack(s: string, hs: seq<Entry>, status: Status)
    requires NoNulls(hs) && AllShown(hs) && At(s, 0, Print(hs))
    requires Rest(s, 0, 0, [], status).complete && Rest(s, 0, 0, [], status).store.headers == hs
    ensures Printable(hs)
  {
    CountForcesNewNames(s, 0, 0, [], hs, Rest(s, 0, 0, [], status), status);
    assert [] + CleanList(hs) == CleanList(hs) && [] + hs == hs;
    AllNewIsUnique([], hs);
    CleanListKeeps(hs);
  }

  lemma CleanListKeeps(hs: seq<Entry>)
    requires NoNulls(hs)
    ensures CleanList(hs) == hs <==> forall i | 0 <= i < |hs| :: NoLineEnds(hs[i].value.value)
  {
    forall i | 0 <= i < |hs| ensures CleanList(hs)[i] == hs[i] <==> NoLineEnds(hs[i].value.value) {
      CleanKeeps(hs[i].value.value);
    }
  }
}
