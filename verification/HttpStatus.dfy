/**
  What the parser makes of the first line of a response.
 */
module HttpStatus {
  import opened Basics
  import opened CStrings
  import opened HttpHeaders
  import opened HttpText
  import opened HttpRoundTrip

  /** A space, or one of the characters from tab to carriage return. */
  predicate White(c: char) {
    c as int == 32 || 9 <= c as int <= 13
  }

  predicate AllWhite(s: string) {
    forall i | 0 <= i < |s| :: White(s[i])
  }

  predicate AllDigits(s: string) {
    forall i | 0 <= i < |s| :: '0' <= s[i] <= '9'
  }

  /** The number that the digits write, most significant first. */
  function ValueOf(digits: string): nat
    requires AllDigits(digits)
  {
    if digits == "" then 0
    else 10 * ValueOf(digits[..|digits| - 1]) + (digits[|digits| - 1] - '0') as nat
  }

  /** A protocol, a space, perhaps more white space, perhaps a sign, digits, and the end or white space. */
  ghost predicate StatusForm(line: string, proto: string, white: string, sign: string, digits: string, rest: string) {
    && line == proto + " " + white + sign + digits + rest
    && ' ' !in proto && AllWhite(white) && (sign == "" || sign == "-" || sign == "+")
    && digits != "" && AllDigits(digits) && (rest != "" ==> White(rest[0]))
  }

  // ---------------------------------------------------------------------------------------------
  // Numbers
  // ---------------------------------------------------------------------------------------------

  lemma {:induction false} SkipWhiteOver(s: string, i: nat, k: nat)
    requires i <= k <= |s| && (forall j | i <= j < k :: IsSpace(s[j])) && (k < |s| ==> !IsSpace(s[k]))
    ensures SkipWhite(s, i) == k
    decreases k - i
  {
    if i < k { SkipWhiteOver(s, i + 1, k); }
  }

  lemma ValueAfter(digits: string, k: nat)
    requires AllDigits(digits) && k < |digits|
    ensures ValueOf(digits[..k + 1]) == 10 * ValueOf(digits[..k]) + (digits[k] - '0') as nat
  {
    assert digits[..k + 1][..k] == digits[..k];
  }

  /** The digits from i on, of which k have been read. */
  lemma {:induction false} DigitsOver(s: string, i: nat, digits: string, k: nat)
    requires AllDigits(digits) && k <= |digits| && i + |digits| <= |s| && s[i..i + |digits|] == digits
    requires i + |digits| < |s| ==> !IsDigit(s[i + |digits|])
    ensures Digits(s, i + k, ValueOf(digits[..k])) == (ValueOf(digits), i + |digits|)
    decreases |digits| - k
  {
    if k == |digits| {
      assert digits[..k] == digits;
    } else {
      assert s[i + k] == digits[k];
      ValueAfter(digits, k);
      DigitsOver(s, i, digits, k + 1);
    }
  }

  function Signed(sign: string, n: int): int {
    if sign == "-" then -n else n
  }

  /** A number is read as what its digits write. */
  lemma NumberIsRead(s: string, i: nat, white: string, sign: string, digits: string, rest: string)
    requires i <= |s| && s[i..] == white + sign + digits + rest && AllWhite(white)
    requires (sign == "" || sign == "-" || sign == "+") && digits != "" && AllDigits(digits)
    requires rest != "" ==> !IsDigit(rest[0])
    ensures Number(s, i) == Some((Signed(sign, ValueOf(digits)), |s| - |rest|))
  {
    var j := i + |white|;
    var k := j + |sign|;
    var e := k + |digits|;
    NumberPlaces(s, i, j, k, e, white, sign, digits, rest);
    assert SkipWhite(s, i) == j by { SkipWhiteOver(s, i, j); }
    assert digits[..1][..0] == "" && ValueOf("") == 0;
    ValueAfter(digits, 0);
    DigitsOver(s, k, digits, 1);
  }

  lemma NumberPlaces(s: string, i: nat, j: nat, k: nat, e: nat, white: string, sign: string, digits: string,
                     rest: string)
    requires i <= |s| && s[i..] == white + sign + digits + rest && AllWhite(white)
    requires (sign == "" || sign == "-" || sign == "+") && digits != "" && AllDigits(digits)
    requires rest != "" ==> !IsDigit(rest[0])
    requires j == i + |white| && k == j + |sign| && e == k + |digits|
    ensures e == |s| - |rest| && s[k..e] == digits && s[k] == digits[0] && IsDigit(s[k])
    ensures (forall x | i <= x < j :: IsSpace(s[x])) && !IsSpace(s[j])
    ensures if sign == "" then s[j] != '-' && s[j] != '+' else s[j] == sign[0]
    ensures e < |s| ==> !IsDigit(s[e])
  {
    var tail := s[i..];
    forall x | i <= x < j ensures IsSpace(s[x]) { assert s[x] == tail[x - i] == white[x - i]; }
    assert s[k] == tail[k - i] == digits[0];
    if sign != "" { assert s[j] == tail[j - i] == sign[0]; }
    assert s[k..e] == tail[k - i..e - i] == digits;
    if rest != "" { assert s[e] == tail[e - i] == rest[0]; }
  }

  // ---------------------------------------------------------------------------------------------
  // What counts as a status line
  // ---------------------------------------------------------------------------------------------

  lemma {:induction false} SkipWhiteShape(s: string, i: nat)
    requires i <= |s|
    ensures forall j | i <= j < SkipWhite(s, i) :: IsSpace(s[j])
    decreases |s| - i
  {
    if i < |s| && IsSpace(s[i]) { SkipWhiteShape(s, i + 1); }
  }

  lemma {:induction false} DigitsShape(s: string, i: nat, acc: int)
    requires i <= |s|
    ensures forall j | i <= j < Digits(s, i, acc).1 :: IsDigit(s[j])
    decreases |s| - i
  {
    if i < |s| && IsDigit(s[i]) { DigitsShape(s, i + 1, 10 * acc + (s[i] - '0') as int); }
  }

  lemma SpaceIsAt(line: string, proto: string, tail: string)
    requires line == proto + ([' '] + tail) && ' ' !in proto
    ensures IndexOf(line, ' ') == |proto| < |line| && line[|proto|..] == " " + tail && line[|proto| + 1..] == tail
  {
    IndexOfAfter(proto, ' ', tail);
  }

  /** The parser takes a line for a status line exactly if it has that form. */
  lemma LooksLikeStatusMeans(line: string)
    ensures LooksLikeStatus(line)
       <==> exists proto, white, sign, digits, rest :: StatusForm(line, proto, white, sign, digits, rest)
  {
    if LooksLikeStatus(line) {
      FormFound(line);
    }
    if proto, white, sign, digits, rest :| StatusForm(line, proto, white, sign, digits, rest) {
      FormLooksLikeStatus(line, proto, white, sign, digits, rest);
    }
  }

  /** Where the sign and the digits of a number start. */
  lemma NumberParts(s: string, i: nat) returns (j: nat, k: nat)
    requires i <= |s| && Number(s, i).Some?
    ensures var e := Number(s, i).value.1;
            && i <= j <= k < e <= |s| && AllWhite(s[i..j]) && AllDigits(s[k..e])
            && (s[j..k] == "" || s[j..k] == "-" || s[j..k] == "+")
  {
    j := SkipWhite(s, i);
    SkipWhiteShape(s, i);
    k := if s[j] == '-' || s[j] == '+' then j + 1 else j;
    DigitsShape(s, k + 1, (s[k] - '0') as int);
    assert k == j + 1 ==> s[j..k] == [s[j]];
  }

  lemma FormFound(line: string)
    requires LooksLikeStatus(line)
    ensures exists proto, white, sign, digits, rest :: StatusForm(line, proto, white, sign, digits, rest)
  {
    var space := IndexOf(line, ' ');
    var i := space + 1;
    IndexOfIsFirst(line, ' ');
    FormFoundAt(line, space, i);
  }

  lemma FormFoundAt(line: string, space: nat, i: nat)
    requires space < |line| && i == space + 1 && line[space] == ' ' && ' ' !in line[..space]
    requires Number(line, i).Some? && (Number(line, i).value.1 == |line| || IsSpace(line[Number(line, i).value.1]))
    ensures exists proto, white, sign, digits, rest :: StatusForm(line, proto, white, sign, digits, rest)
  {
    var j, k := NumberParts(line, i);
    var e := Number(line, i).value.1;
    FormJoins(line, space, i, j, k, e);
  }

  lemma FormJoins(line: string, space: nat, i: nat, j: nat, k: nat, e: nat)
    requires space < i <= j <= k < e <= |line| && i == space + 1 && line[space] == ' ' && ' ' !in line[..space]
    requires AllWhite(line[i..j]) && AllDigits(line[k..e]) && (e < |line| ==> IsSpace(line[e]))
    requires line[j..k] == "" || line[j..k] == "-" || line[j..k] == "+"
    ensures StatusForm(line, line[..space], line[i..j], line[j..k], line[k..e], line[e..])
  {
    assert line[..space] + " " == line[..i];
    assert line[..i] + line[i..j] == line[..j];
    assert line[..j] + line[j..k] == line[..k];
    assert line[..k] + line[k..e] == line[..e];
    assert line[..e] + line[e..] == line;
  }

  lemma FormLooksLikeStatus(line: string, proto: string, white: string, sign: string, digits: string, rest: string)
    requires StatusForm(line, proto, white, sign, digits, rest)
    ensures LooksLikeStatus(line)
  {
    var tail := white + sign + digits + rest;
    assert line == proto + ([' '] + tail);
    SpaceIsAt(line, proto, tail);
    NumberIsRead(line, |proto| + 1, white, sign, digits, rest);
    if rest != "" { assert line[|line| - |rest|] == rest[0]; }
  }

  // ---------------------------------------------------------------------------------------------
  // The status
  // ---------------------------------------------------------------------------------------------

  predicate KnownProtocol(proto: string) {
    SameName(proto, "HTTP/1.0") || SameName(proto, "HTTP/1.1") || SameName(proto, "HTTP")
  }

  /** The reason is what a C string shows of the rest, without the white space at its start. */
  ghost predicate IsReason(rest: string, gap: string, reason: string) {
    CString(rest) == gap + reason && AllWhite(gap) && (reason != "" ==> !White(reason[0]))
  }

  /** What such a line makes of a status: it is accepted exactly if protocol and code are known ones. */
  function StatusAfter(st: Status, line: string, proto: string, code: int, reason: string): (r: Status) {
    if KnownProtocol(proto) && 100 <= code <= 599
    then Status(line, if SameName(proto, "HTTP/1.1") then HTTP_11 else HTTP_10, code, reason)
    else if KnownProtocol(proto)
    then st.(firstline := line, version := if SameName(proto, "HTTP/1.1") then HTTP_11 else HTTP_10)
    else st.(firstline := line)
  }

  lemma CStringJoin(a: string, b: string)
    requires '\0' !in a
    ensures CString(a + b) == a + CString(b)
  {
    var e := CharsAtShape(b, 0);
    forall j | 0 <= j < |a| + e ensures (a + b)[j] != '\0' {}
    CharsAtEnd(a + b, 0, |a| + e);
    assert (a + b)[0..|a| + e] == a + b[0..e];
  }

  /** A status line read again as a C string. */
  lemma ReadAgain(line: string, proto: string, white: string, sign: string, digits: string, rest: string)
    requires StatusForm(line, proto, white, sign, digits, rest) && '\0' !in proto
    ensures StatusForm(CString(line), proto, white, sign, digits, CString(rest))
  {
    var head := proto + " " + white + sign + digits;
    assert '\0' !in head;
    CStringJoin(head, rest);
    var e := CharsAtShape(rest, 0);
    assert CString(rest) != "" ==> CString(rest)[0] == rest[0];
  }

  lemma NumberAfterProtocol(c: string, proto: string, white: string, sign: string, digits: string, shown: string)
    requires StatusForm(c, proto, white, sign, digits, shown)
    ensures IndexOf(c, ' ') == |proto| < |c| && c[..|proto|] == proto
    ensures Number(c, |proto|) == Some((Signed(sign, ValueOf(digits)), |c| - |shown|))
    ensures c[|c| - |shown|..] == shown && |c| > 1
  {
    var wide := " " + white;
    FormTail(c, proto, white, wide, sign, digits, shown);
    SpaceIsAt(c, proto, white + sign + digits + shown);
    NumberIsRead(c, |proto|, wide, sign, digits, shown);
  }

  lemma FormTail(c: string, proto: string, white: string, wide: string, sign: string, digits: string, shown: string)
    requires StatusForm(c, proto, white, sign, digits, shown) && wide == " " + white
    ensures c == proto + ([' '] + (white + sign + digits + shown)) && AllWhite(wide)
    ensures c[|proto|..] == wide + sign + digits + shown && c[|c| - |shown|..] == shown && |c| > 1
  {
    assert c == proto + (wide + sign + digits + shown);
    assert c == (proto + " " + white + sign + digits) + shown;
  }

  lemma SameNoNul(a: string, b: string)
    requires SameName(a, b) && '\0' !in b
    ensures '\0' !in a
  {
    forall i | 0 <= i < |a| ensures a[i] != '\0' {
      assert Lower(a)[i] == Lower(b)[i] && |Lower(a)| == |a| && |Lower(b)| == |b|;
    }
  }

  lemma KnownHasNoNul(proto: string)
    requires KnownProtocol(proto)
    ensures '\0' !in proto
  {
    if SameName(proto, "HTTP/1.0") { SameNoNul(proto, "HTTP/1.0"); }
    if SameName(proto, "HTTP/1.1") { SameNoNul(proto, "HTTP/1.1"); }
    if SameName(proto, "HTTP") { SameNoNul(proto, "HTTP"); }
  }

  /** White space at a place, and what comes after it. */
  lemma GapIsSkipped(c: string, e: nat, gap: string, reason: string)
    requires e <= |c| && c[e..] == gap + reason && AllWhite(gap) && (reason != "" ==> !IsSpace(reason[0]))
    ensures c[SkipWhite(c, e)..] == reason
  {
    forall j | e <= j < e + |gap| ensures IsSpace(c[j]) { assert c[j] == c[e..][j - e] == gap[j - e]; }
    if reason != "" { assert c[e + |gap|] == c[e..][|gap|] == reason[0]; }
    SkipWhiteOver(c, e, e + |gap|);
    assert c[e + |gap|..] == c[e..][|gap|..];
  }

  lemma FirstlineMeans(st: Status, line: string, proto: string, white: string, sign: string, digits: string,
                       rest: string, gap: string, reason: string)
    requires StatusForm(line, proto, white, sign, digits, rest) && IsReason(rest, gap, reason)
    ensures var code := Signed(sign, ValueOf(digits));
            WithFirstline(st, line)
            == (StatusAfter(st, line, proto, code, reason), KnownProtocol(proto) && 100 <= code <= 599)
  {
    assert |line| > 1;
    if '\0' !in proto {
      ReadAgain(line, proto, white, sign, digits, rest);
      FirstlineOfC(st, line, CString(line), proto, white, sign, digits, CString(rest), gap, reason);
    } else {
      if KnownProtocol(proto) { KnownHasNoNul(proto); }
      assert line == proto + (" " + white + sign + digits + rest);
      CutProtocol(line, proto, " " + white + sign + digits + rest);
    }
  }

  lemma FirstlineOfC(st: Status, line: string, c: string, proto: string, white: string, sign: string, digits: string,
                     shown: string, gap: string, reason: string)
    requires c == CString(line) && |line| > 1 && StatusForm(c, proto, white, sign, digits, shown)
    requires shown == gap + reason && AllWhite(gap) && (reason != "" ==> !IsSpace(reason[0]))
    ensures var code := Signed(sign, ValueOf(digits));
            WithFirstline(st, line)
            == (StatusAfter(st, line, proto, code, reason), KnownProtocol(proto) && 100 <= code <= 599)
  {
    NumberAfterProtocol(c, proto, white, sign, digits, shown);
    var e := |c| - |shown|;
    GapIsSkipped(c, e, gap, reason);
    if shown != "" { assert c[e] == c[e..][0]; }
    FirstlineFrom(st, line, c, proto, Signed(sign, ValueOf(digits)), e, reason);
  }

  lemma FirstlineFrom(st: Status, line: string, c: string, proto: string, code: int, e: nat, reason: string)
    requires c == CString(line) && |line| > 1
    requires IndexOf(c, ' ') == |proto| < |c| && c[..|proto|] == proto
    requires e <= |c| && Number(c, |proto|) == Some((code, e)) && (e < |c| ==> IsSpace(c[e]))
    requires c[SkipWhite(c, e)..] == reason
    ensures WithFirstline(st, line)
         == (StatusAfter(st, line, proto, code, reason), KnownProtocol(proto) && 100 <= code <= 599)
  {
  }

  lemma CutProtocol(line: string, proto: string, tail: string)
    requires line == proto + tail && '\0' in proto && ' ' !in proto
    ensures ' ' !in CString(line)
  {
    var e := CharsAtShape(line, 0);
    var i :| 0 <= i < |proto| && proto[i] == '\0';
    assert line[i] == '\0' && e <= i;
    assert line[0..e] == proto[..e];
  }

  // ---------------------------------------------------------------------------------------------
  // The message
  // ---------------------------------------------------------------------------------------------

  lemma FirstLineIsRead(s: string, line: string, to: nat, st: Status, st': Status, good: bool)
    requires At(s, 0, line) && At(s, |line|, "\r\n") && to == |line| + 2
    requires line != "" && ':' !in line && '\n' !in line && LooksLikeStatus(line)
    requires WithFirstline(st, line) == (st', good)
    ensures Rest(s, 0, 0, [], st) == Rest(s, to, if good then 1 else 0, [], st')
  {
    forall j: nat ensures !CrLf(line, j) {}
    TextEnd(s, 0, line);
  }

  /** A list that lines can carry, printed behind something else. */
  lemma PrintedIsRead(s: string, at: nat, to: nat, num: nat, hs: seq<Entry>, st: Status)
    requires NoNulls(hs) && Printable(hs) && At(s, at, Print(hs)) && to == at + |Print(hs)|
    ensures Rest(s, at, num, [], st) == Parsed(true, to, Store(hs, st))
  {
    AllNewIsUnique([], hs);
    CleanListKeeps(hs);
    assert [] + hs == hs;
    NewNamesAreAppended(s, at, to, num, [], hs, hs, st);
  }

  lemma Placed(line: string, text: string, body: string)
    ensures var s := line + "\r\n" + text + body;
            At(s, 0, line) && At(s, |line|, "\r\n") && At(s, |line| + 2, text)
  {
  }

  /**
    A response: a status line, headers that lines can carry, and any body.  The headers and the body are
    found, and the status line is accepted exactly if its protocol is known and its code between 100 and
    599; if not, code and reason stay as they are, and parsing goes on.
   */
  lemma ResponseIsRead(line: string, proto: string, white: string, sign: string, digits: string, rest: string,
                       gap: string, reason: string, hs: seq<Entry>, body: string, st: Status)
    requires StatusForm(line, proto, white, sign, digits, rest) && IsReason(rest, gap, reason)
    requires ':' !in line && '\n' !in line && NoNulls(hs) && Printable(hs)
    ensures Parse(line + "\r\n" + Print(hs) + body, 0, 0, Store([], st), true)
         == Parsed(true, |line| + 2 + |Print(hs)|,
                   Store(hs, StatusAfter(st, line, proto, Signed(sign, ValueOf(digits)), reason)))
  {
    var s, at := line + "\r\n" + Print(hs) + body, |line| + 2;
    var st' := StatusAfter(st, line, proto, Signed(sign, ValueOf(digits)), reason);
    var good := WithFirstline(st, line).1;
    Placed(line, Print(hs), body);
    assert LooksLikeStatus(line) by { FormLooksLikeStatus(line, proto, white, sign, digits, rest); }
    assert WithFirstline(st, line) == (st', good) by {
      FirstlineMeans(st, line, proto, white, sign, digits, rest, gap, reason);
    }
    assert Rest(s, 0, 0, [], st) == Rest(s, at, if good then 1 else 0, [], st') by {
      FirstLineIsRead(s, line, at, st, st', good);
    }
    PrintedIsRead(s, at, at + |Print(hs)|, if good then 1 else 0, hs, st');
  }

  /** A first line without a colon that has not that form: there are no headers, and everything is the body. */
  lemma NotAResponse(line: string, more: string, st: Store, record: bool)
    requires line != "" && ':' !in line && '\n' !in line
    requires !exists proto, white, sign, digits, rest :: StatusForm(line, proto, white, sign, digits, rest)
    ensures Parse(line + "\r\n" + more, 0, 0, st, record) == Parsed(false, 0, st)
  {
    var s := line + "\r\n" + more;
    assert s[0..|line|] == line && s[|line|..|line| + 2] == "\r\n";
    forall j: nat ensures !CrLf(line, j) {}
    TextEnd(s, 0, line);
    LooksLikeStatusMeans(line);
  }

  // ---------------------------------------------------------------------------------------------
  // Parsing without recording
  // ---------------------------------------------------------------------------------------------

  /** After a first line or header, it makes no difference to the end of the headers whether they are recorded. */
  lemma {:induction false} RecordingIsNotSeen(s: string, line: nat, num: nat, st: Store, st': Store)
    requires num > 0
    ensures var p, q := Parse(s, line, num, st, true), Parse(s, line, num, st', false);
            p.complete == q.complete && p.body == q.body && q.store == st'
    decreases |s| - line
  {
    var end := LineEnd(s, line);
    if end.Some? && end.value != line {
      var text := s[line..end.value];
      RecordingIsNotSeen(s, end.value + 2, num + 1,
                         st.(headers := SetFromLine(st.headers, CString(text), APPEND)), st');
    }
  }

  ghost predicate SameEnd(p: Parsed, q: Parsed) {
    p.complete == q.complete && p.body == q.body
  }

  /**
    After a status line that was not accepted, a recording parser takes the next line for a first line
    again.  This goes well if the line, or one after more such lines, ends the headers, is a header
    without an LF, or is a status line that is accepted.
   */
  ghost predicate GoesWell(s: string, line: nat, st: Status)
    decreases |s| - line
  {
    var end := LineEnd(s, line);
    && end.Some?
    && var text := s[line..end.value];
       && '\n' !in text
       && (|| text == "" || ':' in text
           || (LooksLikeStatus(text)
               && var (st', good) := WithFirstline(st, text); good || GoesWell(s, end.value + 2, st')))
  }

  lemma {:induction false} AfterRefusal(s: string, line: nat, num: nat, st: Store, st': Store)
    requires 0 < line <= |s| && num > 0
    ensures SameEnd(Parse(s, line, 0, st, true), Parse(s, line, num, st', false)) <==> GoesWell(s, line, st.status)
    decreases |s| - line
  {
    var end := LineEnd(s, line);
    UnrecordedEnd(s, line, num, st');
    if end.Some? && end.value != line && '\n' !in s[line..end.value] {
      var text, next, num' := s[line..end.value], end.value + 2, num + 1;
      assert Parse(s, line, num, st', false) == Parse(s, next, num', st', false);
      if ':' in text {
        HeaderIsRecorded(s, line, next, text, num', st, st');
      } else if LooksLikeStatus(text) {
        StatusIsRecorded(s, line, next, text, num', st, st');
        var (status, good) := WithFirstline(st.status, text);
        if !good { AfterRefusal(s, next, num', st.(status := status), st'); }
      }
    }
  }

  lemma HeaderIsRecorded(s: string, line: nat, next: nat, text: string, num: nat, st: Store, st': Store)
    requires LineEnd(s, line).Some? && next == LineEnd(s, line).value + 2 && text == s[line..LineEnd(s, line).value]
    requires text != "" && '\n' !in text && ':' in text && num > 0
    ensures SameEnd(Parse(s, line, 0, st, true), Parse(s, next, num, st', false))
  {
    RecordingIsNotSeen(s, next, 1, st.(headers := SetFromLine(st.headers, CString(text), APPEND)), st');
    UnrecordedNumber(s, next, 1, num, st');
  }

  lemma StatusIsRecorded(s: string, line: nat, next: nat, text: string, num: nat, st: Store, st': Store)
    requires LineEnd(s, line).Some? && next == LineEnd(s, line).value + 2 && text == s[line..LineEnd(s, line).value]
    requires text != "" && '\n' !in text && ':' !in text && LooksLikeStatus(text) && num > 0
    ensures var (status, good) := WithFirstline(st.status, text);
            if good then SameEnd(Parse(s, line, 0, st, true), Parse(s, next, num, st', false))
            else Parse(s, line, 0, st, true) == Parse(s, next, 0, st.(status := status), true)
  {
    var (status, good) := WithFirstline(st.status, text);
    if good {
      RecordingIsNotSeen(s, next, 1, st.(status := status), st');
      UnrecordedNumber(s, next, 1, num, st');
    }
  }

  lemma {:induction false} UnrecordedEnd(s: string, line: nat, num: nat, st: Store)
    requires 0 < line <= |s| && num > 0
    ensures Parse(s, line, num, st, false).body > 0
    decreases |s| - line
  {
    var end := LineEnd(s, line);
    if end.Some? && end.value != line { UnrecordedEnd(s, end.value + 2, num + 1, st); }
  }

  lemma {:induction false} UnrecordedNumber(s: string, line: nat, num: nat, num': nat, st: Store)
    requires num > 0 && num' > 0
    ensures Parse(s, line, num, st, false) == Parse(s, line, num', st, false)
    decreases |s| - line
  {
    var end := LineEnd(s, line);
    if end.Some? && end.value != line { UnrecordedNumber(s, end.value + 2, num + 1, num' + 1, st); }
  }

  /** The first line is a status line that is not accepted. */
  ghost predicate Refused(s: string, st: Status) {
    var end := LineEnd(s, 0);
    && end.Some?
    && var text := s[0..end.value];
       text != "" && '\n' !in text && ':' !in text && LooksLikeStatus(text) && !WithFirstline(st, text).1
  }

  /**
    Recording the headers makes no difference to where they end, unless the first line is a status line
    that is not accepted and what follows does not go well as a first line.
   */
  lemma RecordingMatters(s: string, st: Store, st': Store)
    ensures !Refused(s, st.status) ==> SameEnd(Parse(s, 0, 0, st, true), Parse(s, 0, 0, st', false))
    ensures Refused(s, st.status) ==>
              var text := s[0..LineEnd(s, 0).value];
              SameEnd(Parse(s, 0, 0, st, true), Parse(s, 0, 0, st', false))
              <==> GoesWell(s, |text| + 2, WithFirstline(st.status, text).0)
  {
    var end := LineEnd(s, 0);
    if end.Some? && end.value != 0 && '\n' !in s[0..end.value] {
      FirstLineMatters(s, s[0..end.value], end.value + 2, st, st');
    }
  }

  lemma FirstLineMatters(s: string, text: string, next: nat, st: Store, st': Store)
    requires LineEnd(s, 0).Some? && next == LineEnd(s, 0).value + 2 && text == s[0..LineEnd(s, 0).value]
    requires text != "" && '\n' !in text
    ensures !Refused(s, st.status) ==> SameEnd(Parse(s, 0, 0, st, true), Parse(s, 0, 0, st', false))
    ensures Refused(s, st.status) ==>
              (SameEnd(Parse(s, 0, 0, st, true), Parse(s, 0, 0, st', false))
               <==> GoesWell(s, next, WithFirstline(st.status, text).0))
  {
    if ':' in text {
      HeaderIsRecorded(s, 0, next, text, 1, st, st');
      assert Parse(s, 0, 0, st', false) == Parse(s, next, 1, st', false);
    } else if LooksLikeStatus(text) {
      StatusIsRecorded(s, 0, next, text, 1, st, st');
      assert Parse(s, 0, 0, st', false) == Parse(s, next, 1, st', false);
      var (status, good) := WithFirstline(st.status, text);
      if !good { AfterRefusal(s, next, 1, st.(status := status), st'); }
    }
  }

  /** It does make a difference: a status line of a protocol that is not known, and then a line that is none. */
  lemma RecordingCanMatter(s: string, first: string, second: string, st: Store, st': Store)
    requires first == "FTP 200" && second == "x" && s == first + "\r\n" + second + "\r\n" + "\r\n"
    ensures !SameEnd(Parse(s, 0, 0, st, true), Parse(s, 0, 0, st', false))
  {
    TwoBadLines(s, first, second, st.status);
    RefusedThenNone(s, 7, 9, 10, st, st');
  }

  ghost predicate RefusedLine(first: string, st: Status) {
    first != "" && '\n' !in first && ':' !in first && LooksLikeStatus(first) && !WithFirstline(st, first).1
  }

  ghost predicate NoLine(second: string) {
    second != "" && ':' !in second && !LooksLikeStatus(second)
  }

  ghost predicate BadStart(s: string, e: nat, next: nat, end: nat, st: Status) {
    && LineEnd(s, 0) == Some(e) && next == e + 2 && LineEnd(s, next) == Some(end)
    && RefusedLine(s[0..e], st) && NoLine(s[next..end])
  }

  lemma TwoBadLines(s: string, first: string, second: string, st: Status)
    requires first == "FTP 200" && second == "x" && s == first + "\r\n" + second + "\r\n" + "\r\n"
    ensures BadStart(s, 7, 9, 10, st)
  {
    PlacedFirst(s, first, second);
    FtpIsRefused(first, st);
    NoFirstLine(second);
  }

  lemma NoFirstLine(second: string)
    requires second == "x"
    ensures NoLine(second)
  {
    assert IndexOf(second, ' ') == |second|;
  }

  lemma RefusedThenNone(s: string, e: nat, next: nat, end: nat, st: Store, st': Store)
    requires BadStart(s, e, next, end, st.status)
    ensures !SameEnd(Parse(s, 0, 0, st, true), Parse(s, 0, 0, st', false))
  {
    var status := WithFirstline(st.status, s[0..e]).0;
    assert !GoesWell(s, next, status);
    RecordingMatters(s, st, st');
  }

  lemma UnknownIsRefused(line: string, proto: string, white: string, sign: string, digits: string, rest: string,
                         gap: string, reason: string, st: Status)
    requires StatusForm(line, proto, white, sign, digits, rest) && IsReason(rest, gap, reason)
    requires !KnownProtocol(proto) && ':' !in line && '\n' !in line
    ensures RefusedLine(line, st)
  {
    FirstlineMeans(st, line, proto, white, sign, digits, rest, gap, reason);
    FormLooksLikeStatus(line, proto, white, sign, digits, rest);
  }

  lemma ShortIsUnknown(proto: string)
    requires |proto| == 3
    ensures !KnownProtocol(proto)
  {
    assert |Lower(proto)| == 3 && |Lower("HTTP")| == 4 && |Lower("HTTP/1.0")| == 8 && |Lower("HTTP/1.1")| == 8;
  }

  lemma FtpIsRefused(first: string, st: Status)
    requires first == "FTP 200"
    ensures RefusedLine(first, st)
  {
    var proto, digits, none := "FTP", "200", "";
    ShortIsUnknown(proto);
    assert IsReason(none, none, none);
    UnknownIsRefused(first, proto, none, none, digits, none, none, none, st);
  }

  lemma PlacedFirst(s: string, first: string, second: string)
    requires first == "FTP 200" && second == "x" && s == first + "\r\n" + second + "\r\n" + "\r\n"
    ensures LineEnd(s, 0) == Some(7) && s[0..7] == first && LineEnd(s, 9) == Some(10) && s[9..10] == second
  {
    forall j: nat | j < 7 ensures !CrLf(s, j) { assert s[j] == first[j]; }
    LineEndAt(s, 0, 7);
    assert !CrLf(s, 9) && CrLf(s, 10);
    LineEndAt(s, 9, 10);
  }
}
