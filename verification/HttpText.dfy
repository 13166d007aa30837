/**
  The text of a list of headers, and the parsing of such a text, as functions.
 */
module HttpText {
  import opened Basics
  import opened CStrings
  import opened HttpHeaders

  // ---------------------------------------------------------------------------------------------
  // The status line
  // ---------------------------------------------------------------------------------------------

  predicate IsSpace(c: char) {
    c == ' ' || '\t' <= c <= '\r'
  }

  predicate IsDigit(c: char) {
    '0' <= c <= '9'
  }

  function SkipWhite(s: string, i: nat): (k: nat)
    requires i <= |s|
    ensures i <= k <= |s|
    decreases |s| - i
  {
    if i < |s| && IsSpace(s[i]) then SkipWhite(s, i + 1) else i
  }

  /** The value of the digits from i, after acc, and where they end. */
  function Digits(s: string, i: nat, acc: int): (r: (int, nat))
    requires i <= |s|
    ensures i <= r.1 <= |s|
    decreases |s| - i
  {
    if i < |s| && IsDigit(s[i]) then Digits(s, i + 1, 10 * acc + (s[i] - '0') as int) else (acc, i)
  }

  /** The number at i and where it ends, if there is one. */
  function Number(s: string, i: nat): (r: Option<(int, nat)>)
    requires i <= |s|
    ensures r.Some? ==> i < r.value.1 <= |s|
  {
    var j := SkipWhite(s, i);
    var negative := j < |s| && s[j] == '-';
    var k := if j < |s| && (s[j] == '-' || s[j] == '+') then j + 1 else j;
    if k < |s| && IsDigit(s[k]) then
      var (n, e) := Digits(s, k + 1, (s[k] - '0') as int);
      Some((if negative then -n else n, e))
    else None
  }

  /** A first line without a colon is a status line if a number follows its first space. */
  predicate LooksLikeStatus(line: string) {
    var space := IndexOf(line, ' ');
    && space < |line|
    && var n := Number(line, space + 1);
       n.Some? && (n.value.1 == |line| || IsSpace(line[n.value.1]))
  }

  datatype Version = HTTP_ERROR | HTTP_10 | HTTP_11

  datatype Status = Status(firstline: string, version: Version, code: int, reason: string)

  const RC_FIRST_CODE := 100
  const RC_LAST_CODE := 599

  /** The status after the first line, and whether it is a valid one. */
  function WithFirstline(st: Status, line: string): (Status, bool) {
    var st1 := st.(firstline := line);
    var c := CString(line);
    var space := IndexOf(c, ' ');
    if |line| == 1 || space == |c| then (st1, false)
    else
      var proto := c[..space];
      if !SameName(proto, "HTTP/1.0") && !SameName(proto, "HTTP/1.1") && !SameName(proto, "HTTP") then (st1, false)
      else
        var st2 := st1.(version := if SameName(proto, "HTTP/1.1") then HTTP_11 else HTTP_10);
        var n := Number(c, space);
        if n.None? || (n.value.1 < |c| && !IsSpace(c[n.value.1])) then (st2, false)
        else if n.value.0 < RC_FIRST_CODE || n.value.0 > RC_LAST_CODE then (st2, false)
        else (st2.(code := n.value.0, reason := c[SkipWhite(c, n.value.1)..]), true)
  }

  // ---------------------------------------------------------------------------------------------
  // Parsing
  // ---------------------------------------------------------------------------------------------

  datatype Store = Store(headers: seq<Entry>, status: Status)

  /** The first CR LF pair from i on. */
  function LineEnd(s: string, i: nat): (e: Option<nat>)
    ensures e.Some? ==> i <= e.value && e.value + 1 < |s| && s[e.value] == '\r' && s[e.value + 1] == '\n'
    decreases |s| - i
  {
    if i + 1 >= |s| then None
    else if s[i] == '\r' && s[i + 1] == '\n' then Some(i)
    else LineEnd(s, i + 1)
  }

  datatype Parsed = Parsed(complete: bool, body: nat, store: Store)

  /** Parsing from a position after num headers; `record` is whether the headers are wanted. */
  function Parse(s: string, line: nat, num: nat, st: Store, record: bool): (p: Parsed)
    ensures p.body <= |s|
    decreases |s| - line
  {
    var end := LineEnd(s, line);
    if end.None? then Parsed(false, if num == 0 then 0 else |s|, st)
    else
      var e := end.value;
      var text := s[line..e];
      if num == 0 && '\n' in text then Parsed(false, 0, st)
      else if e == line then Parsed(true, e + 2, st)
      else if num == 0 && ':' !in text then
        if !LooksLikeStatus(text) then Parsed(false, 0, st)
        else if !record then Parse(s, e + 2, 1, st, record)
        else
          var (status, good) := WithFirstline(st.status, text);
          Parse(s, e + 2, if good then 1 else 0, st.(status := status), record)
      else
        Parse(s, e + 2, num + 1,
              if record then st.(headers := SetFromLine(st.headers, CString(text), APPEND)) else st, record)
  }

  /** In the course of this parsing no continuation line follows a header without a value. */
  ghost predicate SafeParse(s: string, line: nat, num: nat, st: Store)
    decreases |s| - line
  {
    var end := LineEnd(s, line);
    end.None? || end.value == line
    || var e, text := end.value, s[line..end.value];
       if num == 0 && '\n' in text then true
       else if num == 0 && ':' !in text then
         LooksLikeStatus(text) ==>
           var (status, good) := WithFirstline(st.status, text);
           SafeParse(s, e + 2, if good then 1 else 0, st.(status := status))
       else
         && CanRead(st.headers, CString(text))
         && SafeParse(s, e + 2, num + 1, st.(headers := SetFromLine(st.headers, CString(text), APPEND)))
  }

  /** A list that is empty or ends in a header with a value is safe, whatever the message. */
  lemma {:induction false} LastValueIsSafe(s: string, line: nat, num: nat, st: Store)
    requires LastHasValue(st.headers)
    ensures SafeParse(s, line, num, st)
    decreases |s| - line
  {
    var next, num', st' := SafeLine(s, line, num, st);
    if line < next { LastValueIsSafe(s, next, num', st'); }
  }

  /** Where the parser goes on, if it does. */
  lemma SafeLine(s: string, line: nat, num: nat, st: Store)
    returns (next: nat, num': nat, st': Store)
    requires LastHasValue(st.headers)
    ensures LastHasValue(st'.headers)
    ensures line < next ==> next <= |s| && (SafeParse(s, next, num', st') ==> SafeParse(s, line, num, st))
    ensures next <= line ==> SafeParse(s, line, num, st)
  {
    next, num', st' := line, num, st;
    var end := LineEnd(s, line);
    if end.Some? && end.value != line {
      var e, text := end.value, s[line..end.value];
      next := e + 2;
      if num == 0 && ':' !in text {
        var after := WithFirstline(st.status, text);
        num', st' := if after.1 then 1 else 0, st.(status := after.0);
      } else {
        var hs' := LineKeepsLastValue(st.headers, CString(text));
        num', st' := num + 1, st.(headers := hs');
      }
    }
  }

  // ---------------------------------------------------------------------------------------------
  // Printing
  // ---------------------------------------------------------------------------------------------

  function Text(k: string, v: string): string {
    k + ": " + v
  }

  function Line(e: Entry): string
    requires e.value.Some?
  {
    Text(e.key, e.value.value) + "\r\n"
  }

  function Lines(hs: seq<Entry>): string
    requires forall i | 0 <= i < |hs| :: hs[i].value.Some?
  {
    if hs == [] then "" else Line(hs[0]) + Lines(hs[1..])
  }

  function Print(hs: seq<Entry>): string
    requires forall i | 0 <= i < |hs| :: hs[i].value.Some?
  {
    Lines(hs) + "\r\n"
  }
}
