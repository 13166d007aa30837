/**
  What the names of headers and the lines of a message mean, character by character.
 */
module HttpNames {
  import opened Basics
  import opened CStrings
  import opened HttpHeaders

  // ---------------------------------------------------------------------------------------------
  // Case
  // ---------------------------------------------------------------------------------------------

  /** The characters are the upper-case and the lower-case form of one letter. */
  predicate CasePair(upper: char, lower: char) {
    'A' <= upper <= 'Z' && lower as int == upper as int + 32
  }

  /** Names are compared without regard to the case of the letters A to Z, and with regard to all else. */
  lemma SameNameMeans(a: string, b: string)
    ensures SameName(a, b)
       <==> |a| == |b| && forall i | 0 <= i < |a| :: a[i] == b[i] || CasePair(a[i], b[i]) || CasePair(b[i], a[i])
  {
    if SameName(a, b) {
      assert |Lower(a)| == |a| && |Lower(b)| == |b|;
      forall i | 0 <= i < |a| ensures a[i] == b[i] || CasePair(a[i], b[i]) || CasePair(b[i], a[i]) {
        assert Lower(a)[i] == Lower(b)[i];
      }
    }
  }

  lemma {:induction false} FindEverySpelling(hs: seq<Entry>, a: string, b: string)
    requires SameName(a, b)
    ensures Find(hs, a) == Find(hs, b)
    ensures AllValues(hs, a) == AllValues(hs, b)
    ensures Cleared(hs, a) == Cleared(hs, b)
  {
    if hs != [] { FindEverySpelling(hs[1..], a, b); }
  }

  /** A header set under one spelling of its name is found under every other, and replaces every other. */
  lemma SetUnderAnySpelling(hs: seq<Entry>, key: string, value: Option<string>, overwrite: Overwrite, other: string)
    requires SameName(key, other)
    ensures Lookup(Set(hs, key, value, overwrite), other)
         == Some(SetResult(Lookup(hs, other), CleanValue(value), overwrite, MultiLine(other)))
    ensures AllValues(Set(hs, key, value, overwrite), other) == AllValues(Set(hs, other, value, overwrite), other)
  {
    FindEverySpelling(hs, key, other);
    FindEverySpelling(Set(hs, key, value, overwrite), key, other);
    SetLookup(hs, key, value, overwrite);
    SpellingKeepsValues(hs, key, CleanValue(value), overwrite, MultiLine(key), other);
  }

  lemma {:induction false} ValuesOfSpelling(hs: seq<Entry>, hs': seq<Entry>, name: string)
    requires |hs| == |hs'|
    requires forall i | 0 <= i < |hs| :: hs[i].value == hs'[i].value && SameName(hs[i].key, hs'[i].key)
    ensures AllValues(hs, name) == AllValues(hs', name)
  {
    if hs != [] { ValuesOfSpelling(hs[1..], hs'[1..], name); }
  }

  lemma SpellingKeepsValues(hs: seq<Entry>, key: string, v: Option<string>, overwrite: Overwrite, multi: bool,
                            other: string)
    requires SameName(key, other)
    ensures AllValues(SetIn(hs, key, v, overwrite, multi), other)
         == AllValues(SetIn(hs, other, v, overwrite, multi), other)
  {
    FindEverySpelling(hs, key, other);
    ValuesOfSpelling(SetIn(hs, key, v, overwrite, multi), SetIn(hs, other, v, overwrite, multi), other);
  }

  /**
    A header that comes again: Set-Cookie and WWW-Authenticate are kept as often as they come, and of any
    other the values are joined by a comma under the latest spelling.
   */
  lemma ComingAgain(hs: seq<Entry>, key: string, value: string, i: nat)
    requires i < |hs| && SameName(hs[i].key, key) && forall j | 0 <= j < i :: !SameName(hs[j].key, key)
    ensures SameName(key, "Set-Cookie") || SameName(key, "WWW-Authenticate") ==>
              Set(hs, key, Some(value), APPEND) == hs + [Entry(key, Some(Clean(value)))]
    ensures !SameName(key, "Set-Cookie") && !SameName(key, "WWW-Authenticate") && hs[i].value.Some? ==>
              Set(hs, key, Some(value), APPEND)
              == hs[i := Entry(key, Some(hs[i].value.value + "," + Clean(value)))]
  {
    FindIs(hs, key, i);
  }

  // ---------------------------------------------------------------------------------------------
  // Values
  // ---------------------------------------------------------------------------------------------

  /** Each CR and each LF in a value becomes an underscore, and all else stays. */
  lemma CleanMeans(v: string)
    ensures |Clean(v)| == |v|
    ensures forall i | 0 <= i < |v| :: Clean(v)[i] == if v[i] == '\r' || v[i] == '\n' then '_' else v[i]
  {
  }

  // ---------------------------------------------------------------------------------------------
  // Lines
  // ---------------------------------------------------------------------------------------------

  ghost predicate Spaces(s: string) {
    forall i | 0 <= i < |s| :: s[i] == ' '
  }

  ghost predicate Blanks(s: string) {
    forall i | 0 <= i < |s| :: Blank(s[i])
  }

  /**
    A header line: its key, which holds no colon, starts with no blank and ends in no space; spaces; the
    colon; spaces; its value, which starts with no space.
   */
  ghost predicate HeaderForm(line: string, key: string, before: string, after: string, value: string) {
    && line == key + before + ":" + after + value
    && Spaces(before) && Spaces(after) && ':' !in key
    && (if key == "" then before == "" else key[0] != ' ' && key[0] != '\t' && key[|key| - 1] != ' ')
    && (value != "" ==> value[0] != ' ')
  }

  lemma {:induction false} TrimSpacesOff(key: string, before: string)
    requires Spaces(before) && (key != "" ==> key[|key| - 1] != ' ')
    ensures TrimSpaces(key + before) == key
  {
    if before == "" {
      assert key + before == key;
    } else {
      var k := |before| - 1;
      assert (key + before)[..|key + before| - 1] == key + before[..k];
      assert (key + before)[|key + before| - 1] == before[k];
      TrimSpacesOff(key, before[..k]);
    }
  }

  lemma {:induction false} SkipSpacesOff(after: string, value: string)
    requires Spaces(after) && (value != "" ==> value[0] != ' ')
    ensures SkipSpaces(after + value) == value
  {
    if after == "" {
      assert after + value == value;
    } else {
      assert (after + value)[1..] == after[1..] + value;
      SkipSpacesOff(after[1..], value);
    }
  }

  lemma HeaderParts(line: string, key: string, before: string, after: string, value: string)
    requires HeaderForm(line, key, before, after, value)
    ensures line != "" && !Blank(line[0]) && ':' in line && LineKey(line) == key && LineValue(line) == value
  {
    var k, rest := key + before, after + value;
    assert line == k + ([':'] + rest);
    assert ':' !in k;
    TrimSpacesOff(key, before);
    SkipSpacesOff(after, value);
    ColonParts(line, k, rest);
    assert line[0] == if key != "" then key[0] else ':';
  }

  lemma ColonParts(line: string, k: string, rest: string)
    requires line == k + ([':'] + rest) && ':' !in k
    ensures ':' in line && LineKey(line) == TrimSpaces(k) && LineValue(line) == SkipSpaces(rest)
  {
    assert line[|k|] == ':';
    IndexOfAfter(k, ':', rest);
    assert line[..|k|] == k && line[|k| + 1..] == rest;
  }

  /**
    What a header line does: it sets its key to its value, as the mode says; but a Host line never
    changes a Host header that is there already.
   */
  lemma HeaderLineSets(hs: seq<Entry>, line: string, key: string, before: string, after: string, value: string,
                       overwrite: Overwrite)
    requires HeaderForm(line, key, before, after, value)
    ensures !SameName(key, "host") ==> SetFromLine(hs, line, overwrite) == Set(hs, key, Some(value), overwrite)
    ensures SameName(key, "host") ==>
              SetFromLine(hs, line, overwrite)
              == if exists i :: 0 <= i < |hs| && SameName(hs[i].key, "host") then hs
                 else hs + [Entry(key, Some(Clean(value)))]
  {
    HeaderParts(line, key, before, after, value);
    if SameName(key, "host") { HostStays(hs, key, value); }
  }

  lemma HostStays(hs: seq<Entry>, key: string, value: string)
    requires SameName(key, "host")
    ensures Set(hs, key, Some(value), NO_OVERWRITE)
         == if exists i :: 0 <= i < |hs| && SameName(hs[i].key, "host") then hs
            else hs + [Entry(key, Some(Clean(value)))]
  {
    assert MultiLine(key) ==> |Lower(key)| == 10 || |Lower(key)| == 16;
    assert |Lower(key)| == |Lower("host")| == 4;
    FindEverySpelling(hs, key, "host");
    var i := Find(hs, key);
    if i < |hs| { assert hs[i := hs[i]] == hs; }
  }

  /** The second of two Host lines is ignored, whatever the mode and the spelling. */
  lemma SecondHostIsIgnored(hs: seq<Entry>, line: string, key: string, before: string, after: string, value: string,
                            line': string, key': string, before': string, after': string, value': string,
                            overwrite: Overwrite)
    requires HeaderForm(line, key, before, after, value) && SameName(key, "host")
    requires HeaderForm(line', key', before', after', value') && SameName(key', "host")
    ensures SetFromLine(SetFromLine(hs, line, overwrite), line', overwrite) == SetFromLine(hs, line, overwrite)
  {
    HeaderLineSets(hs, line, key, before, after, value, overwrite);
    var hs' := SetFromLine(hs, line, overwrite);
    HeaderLineSets(hs', line', key', before', after', value', overwrite);
    if !exists i :: 0 <= i < |hs| && SameName(hs[i].key, "host") {
      assert SameName(hs'[|hs|].key, "host");
    }
  }

  lemma {:induction false} SkipBlanksOff(blanks: string, more: string)
    requires Blanks(blanks) && (more != "" ==> !Blank(more[0]))
    ensures SkipBlanks(blanks + more) == more
  {
    if blanks == "" {
      assert blanks + more == more;
    } else {
      assert (blanks + more)[1..] == blanks[1..] + more;
      SkipBlanksOff(blanks[1..], more);
    }
  }

  /** What a continuation line does: it goes, without its blanks, to the end of the last value, after a space. */
  lemma ContinuationExtends(hs: seq<Entry>, line: string, blanks: string, more: string, overwrite: Overwrite)
    requires line == blanks + more && blanks != "" && Blanks(blanks)
    requires more != "" ==> more[0] != ' ' && more[0] != '\t'
    ensures hs == [] || more == "" ==> SetFromLine(hs, line, overwrite) == hs
    ensures hs != [] && hs[|hs| - 1].value.Some? && more != "" ==>
              var front, last := hs[..|hs| - 1], hs[|hs| - 1];
              var value := if last.value.value == "" then more else last.value.value + " " + more;
              SetFromLine(hs, line, overwrite) == front + [Entry(last.key, Some(value))]
  {
    assert line[0] == blanks[0];
    SkipBlanksOff(blanks, more);
    if hs != [] && hs[|hs| - 1].value.Some? {
      var last := hs[|hs| - 1];
      if more == "" {
        assert last.value.value + "" + "" == last.value.value;
        assert hs[|hs| - 1 := last] == hs;
      } else if last.value.value == "" {
        assert "" + "" + more == more;
      }
    }
  }

  /** Any other line, one without a colon, does nothing. */
  lemma OtherLinesDoNothing(hs: seq<Entry>, line: string, overwrite: Overwrite)
    requires ':' !in line && (line == "" || (line[0] != ' ' && line[0] != '\t'))
    ensures SetFromLine(hs, line, overwrite) == hs
  {
  }
}
