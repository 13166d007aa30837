/**
  The ordered, case-insensitive store of HTTP headers, as functions on the list of headers, and the
  text form of such a list.

  Characters are the bytes of the message.  A header without a value is kept as a mark that the
  header is not to be sent.
 */
module HttpHeaders {
  import opened Basics
  import opened CStrings

  datatype Entry = Entry(key: string, value: Option<string>)

  datatype Overwrite = NO_OVERWRITE | APPEND | OVERWRITE

  const SET_COOKIE := "Set-Cookie"
  const WWW_AUTHENTICATE := "WWW-Authenticate"

  // ---------------------------------------------------------------------------------------------
  // Names
  // ---------------------------------------------------------------------------------------------

  function LowerChar(c: char): char {
    if 'A' <= c <= 'Z' then c + 32 as char else c
  }

  function Lower(s: string): string {
    seq(|s|, i requires 0 <= i < |s| => LowerChar(s[i]))
  }

  predicate SameName(a: string, b: string) {
    Lower(a) == Lower(b)
  }

  /** The two headers that may stand on several lines. */
  predicate MultiLine(key: string) {
    SameName(key, SET_COOKIE) || SameName(key, WWW_AUTHENTICATE)
  }

  /** Where the header is; the length of the list if it is not there. */
  function Find(hs: seq<Entry>, key: string): (i: nat)
    ensures i <= |hs|
    ensures i < |hs| ==> SameName(hs[i].key, key)
    ensures forall j | 0 <= j < i :: !SameName(hs[j].key, key)
  {
    if hs == [] || SameName(hs[0].key, key) then 0 else 1 + Find(hs[1..], key)
  }

  // ---------------------------------------------------------------------------------------------
  // Setting a header
  // ---------------------------------------------------------------------------------------------

  function CleanChar(c: char): char {
    if c == '\r' || c == '\n' then '_' else c
  }

  /** A value that ends no line. */
  function Clean(s: string): string {
    seq(|s|, i requires 0 <= i < |s| => CleanChar(s[i]))
  }

  ghost predicate NoLineEnds(v: string) {
    '\r' !in v && '\n' !in v
  }

  lemma CleanKeeps(v: string)
    ensures Clean(v) == v <==> NoLineEnds(v)
  {
    if Clean(v) == v {
      forall i | 0 <= i < |v| ensures v[i] != '\r' && v[i] != '\n' { assert v[i] == Clean(v)[i]; }
    }
  }

  function CleanValue(v: Option<string>): Option<string> {
    if v.Some? then Some(Clean(v.value)) else None
  }

  function Cleared(hs: seq<Entry>, key: string): seq<Entry> {
    if hs == [] then []
    else (if SameName(hs[0].key, key) then [] else [hs[0]]) + Cleared(hs[1..], key)
  }

  function Merge(e: Entry, key: string, value: Option<string>, overwrite: Overwrite): Entry {
    if overwrite == NO_OVERWRITE then e
    else if overwrite == OVERWRITE || e.value.None? then Entry(key, value)
    else if value.Some? then Entry(key, Some(e.value.value + "," + value.value))
    else e
  }

  function Set(hs: seq<Entry>, key: string, value: Option<string>, overwrite: Overwrite): seq<Entry> {
    SetIn(hs, key, CleanValue(value), overwrite, MultiLine(key))
  }

  function SetIn(hs: seq<Entry>, key: string, v: Option<string>, overwrite: Overwrite, multi: bool): seq<Entry> {
    if multi && overwrite == APPEND then hs + [Entry(key, v)]
    else if multi && overwrite == OVERWRITE then Cleared(hs, key) + [Entry(key, v)]
    else
      var i := Find(hs, key);
      if i < |hs| then hs[i := Merge(hs[i], key, v, overwrite)] else hs + [Entry(key, v)]
  }

  // ---------------------------------------------------------------------------------------------
  // Lines
  // ---------------------------------------------------------------------------------------------

  predicate Blank(c: char) {
    c == ' ' || c == '\t'
  }

  function SkipBlanks(s: string): string {
    if s != "" && Blank(s[0]) then SkipBlanks(s[1..]) else s
  }

  function SkipSpaces(s: string): string {
    if s != "" && s[0] == ' ' then SkipSpaces(s[1..]) else s
  }

  function TrimSpaces(s: string): string {
    if s != "" && s[|s| - 1] == ' ' then TrimSpaces(s[..|s| - 1]) else s
  }

  /** Where c is in s; the length of s if it is not there. */
  function IndexOf(s: string, c: char): (i: nat)
    ensures i <= |s| && (i < |s| ==> s[i] == c)
    ensures i == |s| <==> c !in s
  {
    if s == "" || s[0] == c then 0 else 1 + IndexOf(s[1..], c)
  }

  function Separator(value: string, more: string): string {
    if value != "" && more != "" then " " else ""
  }

  /** A continuation line extends the last header. */
  function Continued(hs: seq<Entry>, more: string): seq<Entry> {
    if hs == [] || hs[|hs| - 1].value.None? then hs
    else
      var last := hs[|hs| - 1];
      hs[|hs| - 1 := Entry(last.key, Some(last.value.value + Separator(last.value.value, more) + more))]
  }

  /** The source fails on a continuation line after a header without a value, and on no other line. */
  ghost predicate CanRead(hs: seq<Entry>, line: string) {
    line != "" && Blank(line[0]) && hs != [] ==> hs[|hs| - 1].value.Some?
  }

  function LineKey(line: string): string {
    TrimSpaces(line[..IndexOf(line, ':')])
  }

  function LineValue(line: string): string
    requires ':' in line
  {
    SkipSpaces(line[IndexOf(line, ':') + 1..])
  }

  function LineMode(key: string, overwrite: Overwrite): Overwrite {
    if SameName(key, "host") then NO_OVERWRITE else overwrite
  }

  function SetFromLine(hs: seq<Entry>, line: string, overwrite: Overwrite): seq<Entry> {
    if line != "" && Blank(line[0]) then Continued(hs, SkipBlanks(line))
    else if ':' !in line then hs
    else
      var key := LineKey(line);
      Set(hs, key, Some(LineValue(line)), LineMode(key, overwrite))
  }

  // ---------------------------------------------------------------------------------------------
  // The list as a map from names to values
  // ---------------------------------------------------------------------------------------------

  /** What the first header of that name holds. */
  function Lookup(hs: seq<Entry>, key: string): Option<Option<string>> {
    if Find(hs, key) < |hs| then Some(hs[Find(hs, key)].value) else None
  }

  /** No name occurs twice, but for the two multi-line ones. */
  ghost predicate Unique(hs: seq<Entry>) {
    forall i, j | 0 <= i < j < |hs| :: SameName(hs[i].key, hs[j].key) ==> MultiLine(hs[i].key)
  }

  /** Keys and values are NUL-terminated strings. */
  ghost predicate Terminable(e: Entry) {
    '\0' !in e.key && (e.value.Some? ==> '\0' !in e.value.value)
  }

  ghost predicate AllTerminable(hs: seq<Entry>) {
    forall e | e in hs :: Terminable(e)
  }

  ghost predicate NoNulls(hs: seq<Entry>) {
    forall i | 0 <= i < |hs| :: hs[i].value.Some?
  }

  /** Section 4.2 of RFC 2616: the values of one name are combined, separated by commas. */
  function Combined(was: Option<Option<string>>, v: string): string {
    if was.Some? && was.value.Some? then was.value.value + "," + v else v
  }

  lemma FindIs(hs: seq<Entry>, key: string, i: nat)
    requires i <= |hs| && (i < |hs| ==> SameName(hs[i].key, key))
    requires forall j | 0 <= j < i :: !SameName(hs[j].key, key)
    ensures Find(hs, key) == i
  {
    var k := Find(hs, key);
  }

  lemma {:induction false} ClearedIsRemoval(hs: seq<Entry>, key: string)
    ensures forall i | 0 <= i < |Cleared(hs, key)| ::
              !SameName(Cleared(hs, key)[i].key, key) && Cleared(hs, key)[i] in hs
    ensures Unique(hs) ==> Unique(Cleared(hs, key))
    ensures NoNulls(hs) ==> NoNulls(Cleared(hs, key))
  {
    if hs != [] {
      ClearedIsRemoval(hs[1..], key);
      var rest := Cleared(hs[1..], key);
      if Unique(hs) && !SameName(hs[0].key, key) {
        assert Unique(hs[1..]);
        forall j | 0 <= j < |rest| ensures SameName(hs[0].key, rest[j].key) ==> MultiLine(hs[0].key) {
          var k :| 0 <= k < |hs[1..]| && hs[1..][k] == rest[j];
          assert hs[k + 1] == rest[j];
        }
      }
    }
  }

  lemma LookupTail(hs: seq<Entry>, key: string)
    requires hs != []
    ensures Lookup(hs, key) == if SameName(hs[0].key, key) then Some(hs[0].value) else Lookup(hs[1..], key)
  {
  }

  lemma {:induction false} ClearedLookup(hs: seq<Entry>, key: string, other: string)
    requires !SameName(key, other)
    ensures Lookup(Cleared(hs, key), other) == Lookup(hs, other)
  {
    if hs != [] {
      ClearedLookup(hs[1..], key, other);
      LookupTail(hs, other);
      if SameName(hs[0].key, key) {
        assert Cleared(hs, key) == Cleared(hs[1..], key);
      } else {
        assert Cleared(hs, key)[1..] == Cleared(hs[1..], key);
        LookupTail(Cleared(hs, key), other);
      }
    }
  }

  lemma ClearedHasNone(hs: seq<Entry>, key: string)
    ensures Find(Cleared(hs, key), key) == |Cleared(hs, key)|
  {
    ClearedIsRemoval(hs, key);
    FindIs(Cleared(hs, key), key, |Cleared(hs, key)|);
  }

  lemma ClearedAbsent(hs: seq<Entry>, key: string)
    requires Find(hs, key) == |hs|
    ensures Cleared(hs, key) == hs
  {
    if hs != [] { ClearedAbsent(hs[1..], key); }
  }

  /** Setting a header keeps names unique. */
  lemma SetKeepsUnique(hs: seq<Entry>, key: string, value: Option<string>, overwrite: Overwrite)
    requires Unique(hs)
    ensures Unique(Set(hs, key, value, overwrite))
  {
    var v, i := CleanValue(value), Find(hs, key);
    if MultiLine(key) && overwrite == OVERWRITE {
      ClearedIsRemoval(hs, key);
      AppendKeepsUnique(Cleared(hs, key), Entry(key, v));
    } else if i < |hs| && !(MultiLine(key) && overwrite == APPEND) {
      ReplaceKeepsUnique(hs, i, Merge(hs[i], key, v, overwrite));
    } else {
      AppendKeepsUnique(hs, Entry(key, v));
    }
  }

  lemma AppendKeepsUnique(hs: seq<Entry>, e: Entry)
    requires Unique(hs) && (MultiLine(e.key) || forall i | 0 <= i < |hs| :: !SameName(hs[i].key, e.key))
    ensures Unique(hs + [e])
  {
  }

  lemma ReplaceKeepsUnique(hs: seq<Entry>, k: nat, e: Entry)
    requires Unique(hs) && k < |hs| && SameName(hs[k].key, e.key)
    ensures Unique(hs[k := e])
  {
    var hs' := hs[k := e];
    forall i, j | 0 <= i < j < |hs| && SameName(hs'[i].key, hs'[j].key)
      ensures MultiLine(hs'[i].key)
    {
      assert SameName(hs[i].key, hs[j].key);
    }
  }

  /** The last header, if there is one, has a value. */
  ghost predicate LastHasValue(hs: seq<Entry>) {
    hs != [] ==> hs[|hs| - 1].value.Some?
  }

  lemma LineKeepsLastValue(hs: seq<Entry>, line: string) returns (hs': seq<Entry>)
    requires LastHasValue(hs)
    ensures hs' == SetFromLine(hs, line, APPEND) && LastHasValue(hs') && CanRead(hs, line)
  {
    hs' := SetFromLine(hs, line, APPEND);
  }

  lemma LookupAppended(hs: seq<Entry>, e: Entry, key: string)
    ensures Lookup(hs + [e], key)
         == if Find(hs, key) < |hs| then Lookup(hs, key) else if SameName(e.key, key) then Some(e.value) else None
  {
    var i := Find(hs, key);
    FindIs(hs + [e], key, if i < |hs| || SameName(e.key, key) then i else i + 1);
  }

  lemma LookupReplaced(hs: seq<Entry>, i: nat, e: Entry, key: string)
    requires i < |hs| && SameName(hs[i].key, e.key)
    ensures Find(hs[i := e], key) == Find(hs, key)
  {
    FindIs(hs[i := e], key, Find(hs, key));
  }

  lemma SetOtherName(hs: seq<Entry>, key: string, v: Option<string>, overwrite: Overwrite, multi: bool, other: string)
    requires !SameName(key, other)
    ensures Lookup(SetIn(hs, key, v, overwrite, multi), other) == Lookup(hs, other)
  {
    var e, i := Entry(key, v), Find(hs, key);
    if multi && overwrite == OVERWRITE {
      ClearedLookup(hs, key, other);
      LookupAppended(Cleared(hs, key), e, other);
    } else if i < |hs| && !(multi && overwrite == APPEND) {
      LookupReplaced(hs, i, Merge(hs[i], key, v, overwrite), other);
    } else {
      LookupAppended(hs, e, other);
    }
  }

  lemma SetOwnName(hs: seq<Entry>, key: string, v: Option<string>, overwrite: Overwrite, multi: bool)
    ensures Lookup(SetIn(hs, key, v, overwrite, multi), key) == Some(SetResult(Lookup(hs, key), v, overwrite, multi))
  {
    var e, i := Entry(key, v), Find(hs, key);
    if multi && overwrite == APPEND {
      LookupAppended(hs, e, key);
    } else if multi && overwrite == OVERWRITE {
      ClearedHasNone(hs, key);
      LookupAppended(Cleared(hs, key), e, key);
    } else if i < |hs| {
      var e' := Merge(hs[i], key, v, overwrite);
      LookupReplaced(hs, i, e', key);
      assert hs[i := e'][i] == e';
    } else {
      LookupAppended(hs, e, key);
    }
  }

  /** What is found first under a name after it was set. */
  function SetResult(was: Option<Option<string>>, value: Option<string>, overwrite: Overwrite, multi: bool)
    : Option<string>
  {
    if overwrite == OVERWRITE || was.None? then value
    else if overwrite == NO_OVERWRITE || multi then was.value
    else if value.Some? then Some(Combined(was, value.value))
    else was.value
  }

  /** Setting a header changes what is found under its name as its mode says, and no other name. */
  lemma SetLookup(hs: seq<Entry>, key: string, value: Option<string>, overwrite: Overwrite)
    ensures Lookup(Set(hs, key, value, overwrite), key)
         == Some(SetResult(Lookup(hs, key), CleanValue(value), overwrite, MultiLine(key)))
    ensures forall other | !SameName(key, other) :: Lookup(Set(hs, key, value, overwrite), other) == Lookup(hs, other)
  {
    SetOwnName(hs, key, CleanValue(value), overwrite, MultiLine(key));
    forall other | !SameName(key, other) ensures Lookup(Set(hs, key, value, overwrite), other) == Lookup(hs, other) {
      SetOtherName(hs, key, CleanValue(value), overwrite, MultiLine(key), other);
    }
  }

  /** The values of all headers of that name, in order. */
  function AllValues(hs: seq<Entry>, key: string): seq<Option<string>> {
    if hs == [] then []
    else (if SameName(hs[0].key, key) then [hs[0].value] else []) + AllValues(hs[1..], key)
  }

  /** A new header at the end comes last among those of its name and leaves all other names alone. */
  lemma {:induction false} NewHeaderComesLast(hs: seq<Entry>, e: Entry, key: string)
    ensures AllValues(hs + [e], key) == AllValues(hs, key) + if SameName(e.key, key) then [e.value] else []
    ensures Find(hs, key) < |hs| ==> Lookup(hs + [e], key) == Lookup(hs, key)
  {
    LookupAppended(hs, e, key);
    if hs == [] {
      assert hs + [e] == [e] && [e][1..] == [];
    } else {
      assert (hs + [e])[1..] == hs[1..] + [e];
      NewHeaderComesLast(hs[1..], e, key);
    }
  }

  lemma {:induction false} ClearedValues(hs: seq<Entry>, key: string, other: string)
    ensures AllValues(Cleared(hs, key), other) == if SameName(key, other) then [] else AllValues(hs, other)
  {
    if hs != [] {
      ClearedValues(hs[1..], key, other);
      var rest := Cleared(hs[1..], key);
      if SameName(hs[0].key, key) {
        assert Cleared(hs, key) == rest;
      } else {
        assert Cleared(hs, key)[1..] == rest;
      }
    }
  }

  /** A multi-line header keeps all its values, or loses all but the new one, as its mode says. */
  lemma SetMultiLine(hs: seq<Entry>, key: string, value: Option<string>, overwrite: Overwrite, other: string)
    requires MultiLine(key) && overwrite != NO_OVERWRITE
    ensures AllValues(Set(hs, key, value, overwrite), other)
         == if !SameName(key, other) then AllValues(hs, other)
            else if overwrite == APPEND then AllValues(hs, other) + [CleanValue(value)]
            else [CleanValue(value)]
  {
    var e := Entry(key, CleanValue(value));
    if overwrite == APPEND {
      NewHeaderComesLast(hs, e, other);
    } else {
      NewHeaderComesLast(Cleared(hs, key), e, other);
      ClearedValues(hs, key, other);
    }
  }

  // ---------------------------------------------------------------------------------------------
  // Folding
  // ---------------------------------------------------------------------------------------------

  /** A header line that makes a new entry. */
  ghost predicate MakesEntry(hs: seq<Entry>, line: string, overwrite: Overwrite) {
    && line != "" && !Blank(line[0]) && ':' in line
    && (Find(hs, LineKey(line)) == |hs| || (MultiLine(LineKey(line)) && LineMode(LineKey(line), overwrite) == APPEND))
  }

  /** A line with a key. */
  ghost predicate IsHeaderLine(line: string) {
    line != "" && !Blank(line[0]) && ':' in line
  }

  /** Setting the key puts a new entry at the end. */
  ghost predicate Makes(hs: seq<Entry>, key: string, mode: Overwrite) {
    Find(hs, key) == |hs| || (MultiLine(key) && mode != NO_OVERWRITE)
  }

  /**
    The value v goes to the end of the list: in a new entry, in place of the last one's, or, if it is not
    empty, after the last one's and a comma.
   */
  ghost predicate GoesLast(hs: seq<Entry>, key: string, v: string, mode: Overwrite) {
    || Makes(hs, key, mode)
    || (Find(hs, key) == |hs| - 1 && (mode == OVERWRITE || (mode == APPEND && v != "")))
  }

  /**
    Section 2.2 of RFC 2616: a value folded onto a second line is stored as the value on one line exactly
    when the value goes to the end of the list and the second line holds no CR or LF.  The source extends
    the last entry, whichever the line before changed; it separates the parts by a space if there is any
    value in that entry, even if there was none on the line; and it cleans header lines only.
   */
  lemma FoldingIsUnfolding(hs: seq<Entry>, line: string, fold: string, more: string, overwrite: Overwrite)
    requires NoNulls(hs) && IsHeaderLine(line)
    requires fold != "" && (forall c | c in fold :: Blank(c)) && more != "" && !Blank(more[0])
    ensures SetFromLine(SetFromLine(hs, line, overwrite), fold + more, overwrite)
         == SetFromLine(hs, line + " " + more, overwrite)
       <==> GoesLast(hs, LineKey(line), LineValue(line), LineMode(LineKey(line), overwrite)) && NoLineEnds(more)
  {
    var key, v := LineKey(line), LineValue(line);
    var mode, multi := LineMode(key, overwrite), MultiLine(key);
    LongLine(line, more);
    SkipBlanksFold(fold, more);
    assert (fold + more)[0] == fold[0];
    CleanJoin(v, Separator(v, more), more);
    CleanKeeps(more);
    FoldedSet(hs, key, Clean(v), more, Clean(more), mode, multi);
  }

  /** What folding does to an entry set to `a`, compared with setting it to `a` and, separated, `m`. */
  lemma FoldedSet(hs: seq<Entry>, key: string, a: string, more: string, m: string, mode: Overwrite, multi: bool)
    requires NoNulls(hs) && more != "" && |m| == |more|
    ensures Continued(SetIn(hs, key, Some(a), mode, multi), more)
         == SetIn(hs, key, Some(a + Separator(a, more) + m), mode, multi)
       <==> m == more && (|| Find(hs, key) == |hs| || (multi && mode != NO_OVERWRITE)
                          || (Find(hs, key) == |hs| - 1 && (mode == OVERWRITE || (mode == APPEND && a != ""))))
  {
    var i, b := Find(hs, key), a + Separator(a, more) + m;
    if multi && mode == APPEND {
      FoldedMade(hs, key, a, more, m);
    } else if multi && mode == OVERWRITE {
      FoldedMade(Cleared(hs, key), key, a, more, m);
    } else if i == |hs| {
      FoldedMade(hs, key, a, more, m);
    } else if mode == NO_OVERWRITE {
      assert hs[i := hs[i]] == hs;
      FoldedElsewhere(hs, hs, more);
    } else if i < |hs| - 1 {
      FoldedElsewhere(SetIn(hs, key, Some(a), mode, multi), SetIn(hs, key, Some(b), mode, multi), more);
    } else if mode == OVERWRITE {
      FoldedLast(hs, key, a, b, more);
      Suffixes(a + Separator(a, more), more, m);
    } else {
      FoldedMerge(hs, key, a, more, m);
    }
  }

  lemma FoldedMade(base: seq<Entry>, key: string, a: string, more: string, m: string)
    requires more != ""
    ensures Continued(base + [Entry(key, Some(a))], more) == base + [Entry(key, Some(a + Separator(a, more) + m))]
       <==> m == more
  {
    var once := a + Separator(a, more);
    ContinuedLast(base, key, a, more);
    Suffixes(once, more, m);
    assert (base + [Entry(key, Some(once + more))])[|base|] == Entry(key, Some(once + more));
    assert (base + [Entry(key, Some(once + m))])[|base|] == Entry(key, Some(once + m));
  }

  /** An entry that is not the last one does not get what the last one gets. */
  lemma FoldedElsewhere(hs: seq<Entry>, whole: seq<Entry>, more: string)
    requires hs != [] && hs[|hs| - 1].value.Some? && more != "" && |whole| == |hs| && whole[|hs| - 1] == hs[|hs| - 1]
    ensures Continued(hs, more) != whole
  {
    var last := hs[|hs| - 1].value.value;
    assert Continued(hs, more)[|hs| - 1].value.value == last + Separator(last, more) + more;
  }

  /** Replacing the last entry. */
  lemma FoldedLast(hs: seq<Entry>, key: string, a: string, b: string, more: string)
    requires hs != []
    ensures Continued(hs[|hs| - 1 := Entry(key, Some(a))], more) == hs[|hs| - 1 := Entry(key, Some(b))]
       <==> a + Separator(a, more) + more == b
  {
    var n := |hs| - 1;
    var folded := Continued(hs[n := Entry(key, Some(a))], more);
    assert folded == hs[n := Entry(key, Some(a + Separator(a, more) + more))];
    assert folded[n].value == Some(a + Separator(a, more) + more);
    assert hs[n := Entry(key, Some(b))][n].value == Some(b);
  }

  /** Merging into the last entry: an empty value leaves a space behind the comma. */
  lemma FoldedMerge(hs: seq<Entry>, key: string, a: string, more: string, m: string)
    requires hs != [] && hs[|hs| - 1].value.Some? && more != "" && |m| == |more|
    ensures var n, e := |hs| - 1, hs[|hs| - 1];
            (Continued(hs[n := Merge(e, key, Some(a), APPEND)], more)
             == hs[n := Merge(e, key, Some(a + Separator(a, more) + m), APPEND)]) <==> m == more && a != ""
  {
    var was := hs[|hs| - 1].value.value + "," + a;
    var b := hs[|hs| - 1].value.value + "," + (a + Separator(a, more) + m);
    FoldedLast(hs, key, was, b, more);
    if a != "" {
      assert b == was + " " + m;
      Suffixes(was + " ", more, m);
    } else {
      assert |was + Separator(was, more) + more| == |b| + 1;
    }
  }

  lemma Suffixes(s: string, a: string, b: string)
    ensures s + a == s + b <==> a == b
  {
    assert (s + a)[|s|..] == a && (s + b)[|s|..] == b;
  }

  /** Folding does go wrong: after a merge into an earlier entry, and after a merge of an empty value. */
  lemma FoldingCanFail(a: Entry, b: Entry, line: string, bare: string, second: string, long: string, short: string)
    requires a == Entry("A", Some("1")) && b == Entry("B", Some("2"))
    requires line == "A: x" && bare == "A:" && second == " y" && long == "A: x y" && short == "A: y"
    ensures SetFromLine(SetFromLine([a, b], line, APPEND), second, APPEND) != SetFromLine([a, b], long, APPEND)
    ensures SetFromLine(SetFromLine([a], bare, APPEND), second, APPEND) != SetFromLine([a], short, APPEND)
    ensures SetFromLine(SetFromLine([a], line, APPEND), second, APPEND) == SetFromLine([a], long, APPEND)
  {
    PlainName(a.key);
    assert Find([a, b], a.key) == 0 by { FindIs([a, b], a.key, 0); }
    assert Find([a], a.key) == 0 by { FindIs([a], a.key, 0); }
    SimpleLine(line, a.key, "x");
    SimpleLine(bare, a.key, "");
    assert second == " " + "y" && long == line + " " + "y" && short == bare + " " + "y";
    FoldingOf([a, b], line, " ", "y", second, long, a.key, "x");
    FoldingOf([a], bare, " ", "y", second, short, a.key, "");
    FoldingOf([a], line, " ", "y", second, long, a.key, "x");
  }

  lemma FoldingOf(hs: seq<Entry>, line: string, fold: string, more: string, second: string, long: string,
                  key: string, v: string)
    requires NoNulls(hs) && IsHeaderLine(line) && LineKey(line) == key && LineValue(line) == v
    requires fold != "" && (forall c | c in fold :: Blank(c)) && more != "" && !Blank(more[0]) && NoLineEnds(more)
    requires second == fold + more && long == line + " " + more
    requires Find(hs, key) < |hs| && !MultiLine(key) && LineMode(key, APPEND) == APPEND
    ensures SetFromLine(SetFromLine(hs, line, APPEND), second, APPEND) == SetFromLine(hs, long, APPEND)
       <==> Find(hs, key) == |hs| - 1 && v != ""
  {
    FoldingIsUnfolding(hs, line, fold, more, APPEND);
  }

  lemma PlainName(key: string)
    requires key == "A"
    ensures !MultiLine(key) && LineMode(key, APPEND) == APPEND
  {
    assert |Lower(key)| == 1 && |Lower(SET_COOKIE)| == 10 && |Lower(WWW_AUTHENTICATE)| == 16 && |Lower("host")| == 4;
  }

  lemma SimpleLine(line: string, key: string, v: string)
    requires key == "A" && ((line == "A: x" && v == "x") || (line == "A:" && v == ""))
    ensures IsHeaderLine(line) && LineKey(line) == key && LineValue(line) == v
  {
    assert line[1] == ':' && line[0] == 'A';
    assert IndexOf(line[1..], ':') == 0 && IndexOf(line, ':') == 1;
    assert line[..1] == "A" && TrimSpaces("A") == "A";
    if v == "x" {
      assert line[2..] == " x" && " x"[1..] == "x" && SkipSpaces("x") == "x";
    } else {
      assert line[2..] == "";
    }
  }

  lemma LongLine(line: string, more: string)
    requires line != "" && !Blank(line[0]) && ':' in line && more != "" && !Blank(more[0])
    ensures var long := line + " " + more;
            && long[0] == line[0] && ':' in long && LineKey(long) == LineKey(line)
            && LineValue(long) == LineValue(line) + Separator(LineValue(line), more) + more
  {
    var i, long := IndexOf(line, ':'), line + " " + more;
    IndexOfAppend(line, " " + more, ':');
    assert long == line + (" " + more);
    assert long[..i] == line[..i];
    assert long[i + 1..] == line[i + 1..] + (" " + more);
    SkipSpacesAppend(line[i + 1..], more);
    assert long[i] == ':';
  }

  lemma ContinuedLast(hs: seq<Entry>, key: string, v: string, more: string)
    ensures Continued(hs + [Entry(key, Some(v))], more) == hs + [Entry(key, Some(v + Separator(v, more) + more))]
  {
  }

  lemma MadeEntry(hs: seq<Entry>, line: string, overwrite: Overwrite)
    requires MakesEntry(hs, line, overwrite)
    ensures SetFromLine(hs, line, overwrite) == hs + [Entry(LineKey(line), Some(Clean(LineValue(line))))]
  {
    var key := LineKey(line);
    SetNew(hs, key, Some(Clean(LineValue(line))), LineMode(key, overwrite), MultiLine(key));
  }

  lemma SetNew(hs: seq<Entry>, key: string, v: Option<string>, overwrite: Overwrite, multi: bool)
    requires Find(hs, key) == |hs| || (multi && overwrite == APPEND)
    ensures SetIn(hs, key, v, overwrite, multi) == hs + [Entry(key, v)]
  {
    if Find(hs, key) == |hs| { ClearedAbsent(hs, key); }
  }

  lemma {:induction false} IndexOfAfter(k: string, c: char, t: string)
    requires c !in k
    ensures IndexOf(k + ([c] + t), c) == |k|
  {
    if k != "" {
      assert (k + ([c] + t))[1..] == k[1..] + ([c] + t);
      IndexOfAfter(k[1..], c, t);
    }
  }

  lemma {:induction false} IndexOfAppend(s: string, t: string, c: char)
    requires c in s
    ensures IndexOf(s + t, c) == IndexOf(s, c)
  {
    if s[0] != c {
      assert (s + t)[1..] == s[1..] + t;
      IndexOfAppend(s[1..], t, c);
    }
  }

  lemma {:induction false} SkipSpacesAppend(s: string, more: string)
    requires more != "" && more[0] != ' '
    ensures SkipSpaces(s + (" " + more)) == SkipSpaces(s) + Separator(SkipSpaces(s), more) + more
  {
    if s == "" {
      assert (" " + more)[1..] == more && s + (" " + more) == " " + more;
    } else if s[0] == ' ' {
      assert (s + (" " + more))[1..] == s[1..] + (" " + more);
      SkipSpacesAppend(s[1..], more);
    }
  }

  lemma {:induction false} SkipBlanksFold(fold: string, more: string)
    requires (forall c | c in fold :: Blank(c)) && more != "" && !Blank(more[0])
    ensures SkipBlanks(fold + more) == more
  {
    if fold == "" {
      assert fold + more == more;
    } else {
      assert (fold + more)[1..] == fold[1..] + more;
      SkipBlanksFold(fold[1..], more);
    }
  }

  lemma CleanJoin(s: string, separator: string, t: string)
    requires separator == "" || separator == " "
    ensures Clean(s + separator + t) == Clean(s) + separator + Clean(t)
  {
  }
}
