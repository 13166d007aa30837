/**
  NUL-terminated strings.
 */
module CStrings {
  /** The characters that a pointer to place i shows. */
  function CharsAt(s: string, i: nat): string
    requires i <= |s|
    decreases |s| - i
  {
    if i == |s| || s[i] == '\0' then "" else [s[i]] + CharsAt(s, i + 1)
  }

  /** The characters that a pointer to the string shows. */
  function CString(s: string): string {
    CharsAt(s, 0)
  }

  lemma {:induction false} CharsAtEnd(s: string, i: nat, e: nat)
    requires i <= e <= |s| && (e == |s| || s[e] == '\0')
    requires forall j | i <= j < e :: s[j] != '\0'
    ensures CharsAt(s, i) == s[i..e]
    decreases e - i
  {
    if i < e { CharsAtEnd(s, i + 1, e); }
  }

  lemma CharsAtShape(s: string, i: nat) returns (e: nat)
    requires i <= |s|
    ensures i <= e <= |s| && CharsAt(s, i) == s[i..e] && (e == |s| || s[e] == '\0')
    ensures forall j | i <= j < e :: s[j] != '\0'
    decreases |s| - i
  {
    e := i;
    while e < |s| && s[e] != '\0'
      invariant i <= e <= |s| && forall j | i <= j < e :: s[j] != '\0'
    {
      e := e + 1;
    }
    CharsAtEnd(s, i, e);
  }

  lemma CStringIsWhole(s: string)
    ensures CString(s) == s <==> '\0' !in s
  {
    var e := CharsAtShape(s, 0);
    if CString(s) == s { assert e == |s|; }
  }

  lemma {:induction false} CharsAtFrame(s: string, t: string, i: nat)
    requires |s| == |t| && i <= |s| && forall j | i <= j < |s| :: s[j] == t[j]
    ensures CharsAt(s, i) == CharsAt(t, i)
    decreases |s| - i
  {
    if i < |s| { CharsAtFrame(s, t, i + 1); }
  }
}
