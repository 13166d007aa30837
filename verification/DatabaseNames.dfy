/**
  The table that maps database names to the names of the files that hold them.

  The table is a sequence of rows.  Each SQL statement, and the one transaction, is an atomic step;
  clients interleave at those steps, so what several clients do is a sequence of steps.
 */
module DatabaseNames {
  datatype Row = Row(origin: string, name: string, version: nat, basename: string, corrupt: bool, deleted: bool)

  // ---------------------------------------------------------------------------------------------
  // File names
  // ---------------------------------------------------------------------------------------------

  function Digit(d: nat): char
    requires d < 10
  {
    '0' + d as char
  }

  function Decimal(v: nat): string {
    if v < 10 then [Digit(v)] else Decimal(v / 10) + [Digit(v % 10)]
  }

  function Basename(name: string, version: nat): string {
    if version == 0 then name + "#database" else name + "#database[" + Decimal(version) + "]"
  }

  lemma {:induction false} DecimalIsInjective(v: nat, w: nat)
    requires Decimal(v) == Decimal(w)
    ensures v == w
  {
    DecimalLength(v);
    DecimalLength(w);
    var s := Decimal(v);
    assert s[|s| - 1] == Digit(v % 10) == Digit(w % 10);
    assert v % 10 == w % 10;
    if v >= 10 {
      assert Decimal(v / 10) == s[..|s| - 1] == Decimal(w / 10);
      DecimalIsInjective(v / 10, w / 10);
    }
  }

  lemma {:induction false} DecimalLength(v: nat)
    ensures |Decimal(v)| == 1 <==> v < 10
    ensures |Decimal(v)| >= 1 && '[' !in Decimal(v)
  {
    if v >= 10 { DecimalLength(v / 10); }
  }

  /** The number that the digits write, most significant first. */
  function Reads(s: string): nat
    requires forall i | 0 <= i < |s| :: '0' <= s[i] <= '9'
  {
    if s == "" then 0 else 10 * Reads(s[..|s| - 1]) + (s[|s| - 1] - '0') as nat
  }

  /** A number is written in decimal digits, the first of which is not zero unless it is the only one. */
  lemma {:induction false} DecimalMeans(v: nat)
    ensures Decimal(v) != "" && forall i | 0 <= i < |Decimal(v)| :: '0' <= Decimal(v)[i] <= '9'
    ensures Reads(Decimal(v)) == v
    ensures Decimal(v)[0] == '0' ==> v == 0
  {
    if v >= 10 {
      DecimalMeans(v / 10);
      assert Decimal(v)[..|Decimal(v)| - 1] == Decimal(v / 10);
    } else {
      assert Decimal(v)[..0] == "";
    }
  }

  /** A string has one last bracket. */
  lemma LastBracket(a: string, d: string, b: string, e: string)
    requires a + "[" + d == b + "[" + e && '[' !in d && '[' !in e
    ensures a == b && d == e
  {
    var s := a + "[" + d;
    assert s[|a|] == '[' && s[|b|] == '[';
    forall k | |a| < k < |s| ensures s[k] != '[' { assert s[k] == d[k - |a| - 1]; }
    forall k | |b| < k < |s| ensures s[k] != '[' { assert s[k] == e[k - |b| - 1]; }
    assert a == s[..|a|] && b == s[..|b|];
    assert d == s[|a| + 1..] && e == s[|b| + 1..];
  }

  /** No two databases, and no two versions of one, share a file name. */
  lemma BasenameIsInjective(n: string, v: nat, m: string, w: nat)
    ensures Basename(n, v) == Basename(m, w) <==> n == m && v == w
  {
    if Basename(n, v) == Basename(m, w) {
      var s := Basename(n, v);
      assert s[|s| - 1] == if v == 0 then 'e' else ']';
      assert s[|s| - 1] == if w == 0 then 'e' else ']';
      if v == 0 {
        assert n == s[..|s| - 9] == m;
      } else {
        assert s[..|s| - 1] == (n + "#database") + "[" + Decimal(v);
        assert s[..|s| - 1] == (m + "#database") + "[" + Decimal(w);
        DecimalLength(v);
        DecimalLength(w);
        LastBracket(n + "#database", Decimal(v), m + "#database", Decimal(w));
        assert n == (n + "#database")[..|n|] && m == (m + "#database")[..|m|];
        DecimalIsInjective(v, w);
      }
    }
  }

  // ---------------------------------------------------------------------------------------------
  // The statements
  // ---------------------------------------------------------------------------------------------

  datatype Answer = NotFound | Found(basename: string) | Invalid

  predicate Names(r: Row, origin: string, name: string) {
    r.origin == origin && r.name == name
  }

  predicate LiveFor(r: Row, origin: string, name: string) {
    Names(r, origin, name) && !r.deleted
  }

  /** How many rows there are for the name. */
  function Versions(rows: seq<Row>, origin: string, name: string): nat {
    if rows == [] then 0
    else Versions(rows[..|rows| - 1], origin, name) + if Names(rows[|rows| - 1], origin, name) then 1 else 0
  }

  function NextVersion(rows: seq<Row>, origin: string, name: string): nat {
    if rows == [] then 0
    else
      var r, v := rows[|rows| - 1], NextVersion(rows[..|rows| - 1], origin, name);
      if Names(r, origin, name) && r.version + 1 > v then r.version + 1 else v
  }

  /** The basename of the one live row; more than one is an error. */
  function LookUp(rows: seq<Row>, origin: string, name: string): Answer {
    if rows == [] then NotFound
    else
      var r, a := rows[|rows| - 1], LookUp(rows[..|rows| - 1], origin, name);
      if !LiveFor(r, origin, name) then a
      else if a == NotFound then Found(r.basename)
      else Invalid
  }

  function NewRow(origin: string, name: string, version: nat): Row {
    Row(origin, name, version, Basename(name, version), false, false)
  }

  datatype Statement =
    | Look(origin: string, name: string)
    | Create(origin: string, name: string)
    | Corrupt(origin: string, name: string, basename: string)
    | Delete(origin: string, basename: string)
    | DeleteAll(origin: string)

  /** What a statement that updates rows makes of one. */
  function Update(c: Statement, r: Row): Row {
    match c
    case Corrupt(o, n, b) =>
      if r.origin == o && r.name == n && r.basename == b then r.(corrupt := true, deleted := true) else r
    case Delete(o, b) => if r.origin == o && r.basename == b then r.(deleted := true) else r
    case DeleteAll(o) => if r.origin == o then r.(deleted := true) else r
    case _ => r
  }

  function UpdateAll(c: Statement, rows: seq<Row>): seq<Row> {
    seq(|rows|, i requires 0 <= i < |rows| => Update(c, rows[i]))
  }

  /** The table after a step that completes. */
  function Step(rows: seq<Row>, c: Statement): seq<Row> {
    if c.Create? && LookUp(rows, c.origin, c.name) == NotFound
    then rows + [NewRow(c.origin, c.name, NextVersion(rows, c.origin, c.name))]
    else UpdateAll(c, rows)
  }

  /** What the client that took the step is given. */
  function Given(rows: seq<Row>, c: Statement): Answer {
    match c
    case Look(o, n) => LookUp(rows, o, n)
    case Create(o, n) => LookUp(Step(rows, c), o, n)
    case _ => NotFound
  }

  function Run(rows: seq<Row>, cs: seq<Statement>): seq<Row> {
    if cs == [] then rows else Step(Run(rows, cs[..|cs| - 1]), cs[|cs| - 1])
  }

  // ---------------------------------------------------------------------------------------------
  // The invariant
  // ---------------------------------------------------------------------------------------------

  ghost predicate RowOk(rows: seq<Row>, i: nat)
    requires i < |rows|
  {
    var r := rows[i];
    && r.basename == Basename(r.name, r.version)
    && r.version == Versions(rows[..i], r.origin, r.name)
    && (r.corrupt ==> r.deleted)
  }

  /** The versions of a name are 0, 1, 2 and so on in order, and only the last may be live. */
  ghost predicate TableOk(rows: seq<Row>) {
    && (forall i | 0 <= i < |rows| :: RowOk(rows, i))
    && forall i, j | 0 <= i < j < |rows| :: Names(rows[i], rows[j].origin, rows[j].name) ==> rows[i].deleted
  }

  lemma TablePrefix(rows: seq<Row>)
    requires TableOk(rows) && rows != []
    ensures TableOk(rows[..|rows| - 1])
  {
    var init := rows[..|rows| - 1];
    forall i | 0 <= i < |init| ensures RowOk(init, i) {
      assert RowOk(rows, i) && rows[..i] == init[..i];
    }
  }

  lemma {:induction false} NextVersionIsCount(rows: seq<Row>, origin: string, name: string)
    requires TableOk(rows)
    ensures NextVersion(rows, origin, name) == Versions(rows, origin, name)
  {
    if rows != [] {
      TablePrefix(rows);
      NextVersionIsCount(rows[..|rows| - 1], origin, name);
      assert RowOk(rows, |rows| - 1);
    }
  }

  /** What a lookup finds is the basename of the only live row. */
  lemma {:induction false} LookUpFinds(rows: seq<Row>, origin: string, name: string)
    requires TableOk(rows)
    ensures LookUp(rows, origin, name) != Invalid
    ensures LookUp(rows, origin, name) == NotFound <==> forall i | 0 <= i < |rows| :: !LiveFor(rows[i], origin, name)
    ensures forall i | 0 <= i < |rows| && LiveFor(rows[i], origin, name) ::
              LookUp(rows, origin, name) == Found(rows[i].basename)
  {
    if rows != [] {
      var init, r := rows[..|rows| - 1], rows[|rows| - 1];
      TablePrefix(rows);
      LookUpFinds(init, origin, name);
      assert forall i | 0 <= i < |init| :: rows[i] == init[i];
    }
  }

  lemma {:induction false} VersionsUpdated(c: Statement, rows: seq<Row>, origin: string, name: string)
    ensures Versions(UpdateAll(c, rows), origin, name) == Versions(rows, origin, name)
  {
    if rows != [] {
      VersionsUpdated(c, rows[..|rows| - 1], origin, name);
      assert UpdateAll(c, rows)[..|rows| - 1] == UpdateAll(c, rows[..|rows| - 1]);
    }
  }

  lemma UpdateKeepsTable(rows: seq<Row>, c: Statement)
    requires TableOk(rows)
    ensures TableOk(UpdateAll(c, rows))
  {
    var rows' := UpdateAll(c, rows);
    forall i | 0 <= i < |rows'| ensures RowOk(rows', i) { UpdateKeepsRow(rows, c, i); }
    forall i, j | 0 <= i < j < |rows'| && Names(rows'[i], rows'[j].origin, rows'[j].name) ensures rows'[i].deleted {
      assert Names(rows[i], rows[j].origin, rows[j].name);
    }
  }

  lemma UpdateKeepsRow(rows: seq<Row>, c: Statement, i: nat)
    requires i < |rows| && RowOk(rows, i)
    ensures RowOk(UpdateAll(c, rows), i)
  {
    assert UpdateAll(c, rows)[..i] == UpdateAll(c, rows[..i]);
    VersionsUpdated(c, rows[..i], rows[i].origin, rows[i].name);
  }

  lemma StepKeepsTable(rows: seq<Row>, c: Statement)
    requires TableOk(rows)
    ensures TableOk(Step(rows, c))
  {
    if c.Create? && LookUp(rows, c.origin, c.name) == NotFound {
      var rows' := Step(rows, c);
      NextVersionIsCount(rows, c.origin, c.name);
      LookUpFinds(rows, c.origin, c.name);
      forall i | 0 <= i < |rows'| ensures RowOk(rows', i) {
        if i < |rows| {
          assert RowOk(rows, i) && rows'[..i] == rows[..i];
        } else {
          assert rows'[..i] == rows;
        }
      }
    } else {
      UpdateKeepsTable(rows, c);
    }
  }

  lemma {:induction false} RunKeepsTable(cs: seq<Statement>)
    ensures TableOk(Run([], cs))
  {
    if cs != [] {
      RunKeepsTable(cs[..|cs| - 1]);
      StepKeepsTable(Run([], cs[..|cs| - 1]), cs[|cs| - 1]);
    }
  }

  // ---------------------------------------------------------------------------------------------
  // What the table is for
  // ---------------------------------------------------------------------------------------------

  /** The two constraints of the table's schema. */
  ghost predicate Unique(rows: seq<Row>) {
    && (forall i, j | 0 <= i < j < |rows| ::
          Names(rows[i], rows[j].origin, rows[j].name) ==> rows[i].version != rows[j].version)
    && forall i, j | 0 <= i < j < |rows| :: rows[i].origin == rows[j].origin ==> rows[i].basename != rows[j].basename
  }

  lemma {:induction false} VersionsGrow(rows: seq<Row>, i: nat, j: nat, origin: string, name: string)
    requires i < j <= |rows| && Names(rows[i], origin, name)
    ensures Versions(rows[..i], origin, name) < Versions(rows[..j], origin, name)
    decreases j
  {
    assert rows[..j][..j - 1] == rows[..j - 1];
    if i < j - 1 { VersionsGrow(rows, i, j - 1, origin, name); }
  }

  lemma VersionsDiffer(rows: seq<Row>, i: nat, j: nat)
    requires TableOk(rows) && i < j < |rows| && Names(rows[i], rows[j].origin, rows[j].name)
    ensures rows[i].version < rows[j].version
  {
    assert RowOk(rows, i) && RowOk(rows, j);
    VersionsGrow(rows, i, j, rows[j].origin, rows[j].name);
  }

  /** The schema's constraints never stop a step, whatever the clients do. */
  lemma ConstraintsHold(cs: seq<Statement>)
    ensures Unique(Run([], cs))
  {
    var rows := Run([], cs);
    RunKeepsTable(cs);
    forall i, j | 0 <= i < j < |rows| && rows[i].origin == rows[j].origin
      ensures rows[i].name == rows[j].name ==> rows[i].version != rows[j].version
      ensures rows[i].basename != rows[j].basename
    {
      if rows[i].name == rows[j].name { VersionsDiffer(rows, i, j); }
      assert RowOk(rows, i) && RowOk(rows, j);
      BasenameIsInjective(rows[i].name, rows[i].version, rows[j].name, rows[j].version);
    }
  }

  ghost predicate HasVersion(rows: seq<Row>, origin: string, name: string, v: nat) {
    exists i | 0 <= i < |rows| :: Names(rows[i], origin, name) && rows[i].version == v
  }

  lemma HasVersionLast(rows: seq<Row>, origin: string, name: string, v: nat)
    requires rows != []
    ensures var r := rows[|rows| - 1];
            HasVersion(rows, origin, name, v)
            <==> HasVersion(rows[..|rows| - 1], origin, name, v) || (Names(r, origin, name) && r.version == v)
  {
    var init := rows[..|rows| - 1];
    if HasVersion(init, origin, name, v) {
      var i :| 0 <= i < |init| && Names(init[i], origin, name) && init[i].version == v;
      assert rows[i] == init[i];
    }
    if HasVersion(rows, origin, name, v) {
      var i :| 0 <= i < |rows| && Names(rows[i], origin, name) && rows[i].version == v;
      if i < |init| { assert rows[i] == init[i]; }
    }
  }

  /** The versions of a name are 0 to k - 1. */
  lemma {:induction false} VersionsAreContiguous(rows: seq<Row>, origin: string, name: string, v: nat)
    requires TableOk(rows)
    ensures v < Versions(rows, origin, name) <==> HasVersion(rows, origin, name, v)
  {
    if rows != [] {
      TablePrefix(rows);
      VersionsAreContiguous(rows[..|rows| - 1], origin, name, v);
      HasVersionLast(rows, origin, name, v);
      assert RowOk(rows, |rows| - 1);
    }
  }

  /** A client is given a live row's basename, and never an error. */
  lemma GivenIsLive(rows: seq<Row>, c: Statement)
    requires TableOk(rows) && (c.Look? || c.Create?)
    ensures Given(rows, c) != Invalid && (c.Create? ==> Given(rows, c) != NotFound)
    ensures Given(rows, c).Found? ==>
              exists i | 0 <= i < |Step(rows, c)| ::
                LiveFor(Step(rows, c)[i], c.origin, c.name) && Step(rows, c)[i].basename == Given(rows, c).basename
  {
    var rows' := Step(rows, c);
    StepKeepsTable(rows, c);
    LookUpFinds(rows, c.origin, c.name);
    LookUpFinds(rows', c.origin, c.name);
    if c.Create? && LookUp(rows, c.origin, c.name) == NotFound {
      assert LiveFor(rows'[|rows|], c.origin, c.name);
    } else {
      assert rows' == rows;
    }
  }

  /** A file has been marked deleted or corrupt. */
  ghost predicate Retired(rows: seq<Row>, origin: string, basename: string) {
    exists i | 0 <= i < |rows| :: rows[i].origin == origin && rows[i].basename == basename && rows[i].deleted
  }

  lemma StepKeepsRetired(rows: seq<Row>, c: Statement, origin: string, basename: string)
    requires Retired(rows, origin, basename)
    ensures Retired(Step(rows, c), origin, basename)
  {
    var i :| 0 <= i < |rows| && rows[i].origin == origin && rows[i].basename == basename && rows[i].deleted;
    var r := Step(rows, c)[i];
    assert r.origin == origin && r.basename == basename && r.deleted;
  }

  lemma {:induction false} RunKeepsRetired(cs: seq<Statement>, k: nat, origin: string, basename: string)
    requires k <= |cs| && Retired(Run([], cs[..k]), origin, basename)
    ensures Retired(Run([], cs), origin, basename)
    decreases |cs|
  {
    if k == |cs| {
      assert cs[..k] == cs;
    } else {
      var init := cs[..|cs| - 1];
      assert init[..k] == cs[..k];
      RunKeepsRetired(init, k, origin, basename);
      StepKeepsRetired(Run([], init), cs[|cs| - 1], origin, basename);
    }
  }

  /**
    Names are never reused: a file that was deleted or marked corrupt at some moment of a run is not
    given to any client at any later moment, however the clients interleave.
   */
  lemma NeverGivenAgain(cs: seq<Statement>, k: nat, c: Statement, basename: string)
    requires k <= |cs| && (c.Look? || c.Create?) && Retired(Run([], cs[..k]), c.origin, basename)
    ensures Given(Run([], cs), c) != Found(basename)
  {
    RunKeepsTable(cs);
    RunKeepsRetired(cs, k, c.origin, basename);
    var rows := Run([], cs);
    StepKeepsRetired(rows, c, c.origin, basename);
    assert Run([], cs + [c]) == Step(rows, c) by { assert (cs + [c])[..|cs|] == cs; }
    ConstraintsHold(cs + [c]);
    GivenIsLive(rows, c);
    forall i | 0 <= i < |Step(rows, c)| && LiveFor(Step(rows, c)[i], c.origin, c.name)
      ensures Step(rows, c)[i].basename != basename
    {
      RetiredIsNotLive(Step(rows, c), i, c.origin, basename);
    }
  }

  lemma RetiredIsNotLive(rows: seq<Row>, i: nat, origin: string, basename: string)
    requires Unique(rows) && Retired(rows, origin, basename)
    requires i < |rows| && rows[i].origin == origin && !rows[i].deleted
    ensures rows[i].basename != basename
  {
    var j :| 0 <= j < |rows| && rows[j].origin == origin && rows[j].basename == basename && rows[j].deleted;
    assert i != j;
  }

  /** Deleting or corrupting what a client was given retires it. */
  lemma DeletingRetires(rows: seq<Row>, i: nat, c: Statement)
    requires i < |rows|
    requires || c == Corrupt(rows[i].origin, rows[i].name, rows[i].basename)
             || c == Delete(rows[i].origin, rows[i].basename)
             || c == DeleteAll(rows[i].origin)
    ensures Retired(Step(rows, c), rows[i].origin, rows[i].basename)
  {
    assert Step(rows, c)[i].deleted;
  }

  /** Until a file is retired, every client that asks for the database is given the same one. */
  lemma ClientsAgree(rows: seq<Row>, cs: seq<Statement>, c: Statement, d: Statement, basename: string)
    requires TableOk(rows) && (c.Look? || c.Create?) && (d.Look? || d.Create?)
    requires c.origin == d.origin && c.name == d.name
    requires Given(rows, c) == Found(basename)
    requires !Retired(Run(Step(rows, c), cs), c.origin, basename)
    ensures Given(Run(Step(rows, c), cs), d) == Found(basename)
  {
    GivenIsLive(rows, c);
    StepKeepsTable(rows, c);
    var rows' := Step(rows, c);
    var i :| 0 <= i < |rows'| && LiveFor(rows'[i], c.origin, c.name) && rows'[i].basename == basename;
    RunKeepsRow(rows', cs, i);
    LiveIsGiven(Run(rows', cs), i, d, basename);
  }

  lemma LiveIsGiven(rows: seq<Row>, i: nat, d: Statement, basename: string)
    requires TableOk(rows) && i < |rows| && (d.Look? || d.Create?)
    requires Names(rows[i], d.origin, d.name) && rows[i].basename == basename && !Retired(rows, d.origin, basename)
    ensures Given(rows, d) == Found(basename)
  {
    assert LiveFor(rows[i], d.origin, d.name);
    LookUpFinds(rows, d.origin, d.name);
    ReadKeeps(rows, d);
  }

  lemma ReadKeeps(rows: seq<Row>, c: Statement)
    requires c.Look? || c.Create?
    ensures UpdateAll(c, rows) == rows
  {
  }

  lemma CreateGives(rows: seq<Row>, origin: string, name: string)
    requires LookUp(rows, origin, name) == NotFound
    ensures Given(rows, Create(origin, name)) == Found(Basename(name, NextVersion(rows, origin, name)))
  {
    var rows' := Step(rows, Create(origin, name));
    assert rows'[..|rows'| - 1] == rows;
  }

  /** Which rows a statement touches, and how: all others, and all else in these, stay as they are. */
  lemma StepTouches(rows: seq<Row>, c: Statement, i: nat)
    requires i < |rows|
    ensures |rows| <= |Step(rows, c)|
    ensures var r, r' := rows[i], Step(rows, c)[i];
            && r'.origin == r.origin && r'.name == r.name && r'.version == r.version && r'.basename == r.basename
            && match c
               case Delete(origin, basename) =>
                 && r'.corrupt == r.corrupt
                 && r'.deleted == (r.deleted || (r.origin == origin && r.basename == basename))
               case Corrupt(origin, name, basename) =>
                 var hit := r.origin == origin && r.name == name && r.basename == basename;
                 r'.corrupt == (r.corrupt || hit) && r'.deleted == (r.deleted || hit)
               case DeleteAll(origin) =>
                 r'.corrupt == r.corrupt && r'.deleted == (r.deleted || r.origin == origin)
               case _ => r' == r
  {
  }

  /** Only the creation of a database that is not found adds a row: a live one, with a version of its own. */
  lemma StepAdds(rows: seq<Row>, c: Statement)
    requires TableOk(rows)
    ensures if c.Create? && LookUp(rows, c.origin, c.name) == NotFound
            then exists v ::
                   && Step(rows, c) == rows + [Row(c.origin, c.name, v, Basename(c.name, v), false, false)]
                   && forall i | 0 <= i < |rows| && Names(rows[i], c.origin, c.name) :: rows[i].version < v
            else |Step(rows, c)| == |rows|
  {
    if c.Create? && LookUp(rows, c.origin, c.name) == NotFound {
      var v := NextVersion(rows, c.origin, c.name);
      NextVersionIsAbove(rows, c.origin, c.name);
      assert Step(rows, c) == rows + [Row(c.origin, c.name, v, Basename(c.name, v), false, false)];
    }
  }

  lemma {:induction false} NextVersionIsAbove(rows: seq<Row>, origin: string, name: string)
    ensures forall i | 0 <= i < |rows| && Names(rows[i], origin, name) ::
              rows[i].version < NextVersion(rows, origin, name)
  {
    if rows != [] {
      var init := rows[..|rows| - 1];
      NextVersionIsAbove(init, origin, name);
      assert forall i | 0 <= i < |init| :: rows[i] == init[i];
    }
  }

  /** What every later lookup answers after a step, for the databases that it is about and for all others. */
  lemma StepAnswers(rows: seq<Row>, c: Statement, origin: string, name: string)
    requires TableOk(rows)
    ensures var was := LookUp(rows, origin, name);
            LookUp(Step(rows, c), origin, name)
            == match c
               case Delete(o, b) => if origin == o && was == Found(b) then NotFound else was
               case Corrupt(o, n, b) => if origin == o && name == n && was == Found(b) then NotFound else was
               case DeleteAll(o) => if origin == o then NotFound else was
               case Look(_, _) => was
               case Create(o, n) =>
                 if origin == o && name == n && was == NotFound then Found(Basename(n, NextVersion(rows, o, n)))
                 else was
  {
    if c.Create? {
      CreateAnswers(rows, c, origin, name);
    } else if c.Look? {
      ReadKeeps(rows, c);
    } else {
      UpdateAnswers(rows, c, origin, name);
    }
  }

  lemma CreateAnswers(rows: seq<Row>, c: Statement, origin: string, name: string)
    requires c.Create?
    ensures var was := LookUp(rows, origin, name);
            LookUp(Step(rows, c), origin, name)
            == if origin == c.origin && name == c.name && was == NotFound
               then Found(Basename(name, NextVersion(rows, origin, name))) else was
  {
    var rows' := Step(rows, c);
    if LookUp(rows, c.origin, c.name) == NotFound {
      assert rows'[..|rows'| - 1] == rows;
    } else {
      ReadKeeps(rows, c);
    }
  }

  lemma UpdateAnswers(rows: seq<Row>, c: Statement, origin: string, name: string)
    requires TableOk(rows) && (c.Delete? || c.Corrupt? || c.DeleteAll?)
    ensures var was := LookUp(rows, origin, name);
            var hit := origin == c.origin
                       && match c
                          case Delete(_, b) => was == Found(b)
                          case Corrupt(_, n, b) => name == n && was == Found(b)
                          case _ => true;
            LookUp(Step(rows, c), origin, name) == if hit then NotFound else was
  {
    var rows' := Step(rows, c);
    StepKeepsTable(rows, c);
    LookUpFinds(rows, origin, name);
    LookUpFinds(rows', origin, name);
    forall i | 0 <= i < |rows'| && LiveFor(rows'[i], origin, name) ensures LiveFor(rows[i], origin, name) {
      StepTouches(rows, c, i);
    }
    if i :| 0 <= i < |rows| && LiveFor(rows[i], origin, name) { StepTouches(rows, c, i); }
  }

  /** Rows stay where they are, and only ever become deleted or corrupt. */
  lemma {:induction false} RunKeepsRow(rows: seq<Row>, cs: seq<Statement>, i: nat)
    requires TableOk(rows) && i < |rows|
    ensures TableOk(Run(rows, cs)) && i < |Run(rows, cs)|
    ensures var r := Run(rows, cs)[i];
            && r.origin == rows[i].origin && r.name == rows[i].name
            && r.basename == rows[i].basename && r.version == rows[i].version && (rows[i].deleted ==> r.deleted)
  {
    if cs != [] {
      RunKeepsRow(rows, cs[..|cs| - 1], i);
      StepKeepsTable(Run(rows, cs[..|cs| - 1]), cs[|cs| - 1]);
    }
  }

  // ---------------------------------------------------------------------------------------------
  // The table as an object
  // ---------------------------------------------------------------------------------------------

  /** `failures` counts the SQL calls that have failed, which any of them may. */
  class DatabaseNameTable {
    var rows: seq<Row>
    ghost var failures: nat

    ghost predicate Valid()
      reads this
    {
      TableOk(rows)
    }

    constructor ()
      ensures Valid() && rows == []
    {
      rows, failures := [], 0;
    }

    /** Whether an SQL call succeeds is up to the database. */
    method Succeeds() returns (ok: bool)
      modifies this`failures
      ensures failures == if ok then old(failures) else old(failures) + 1
    {
      ok := *;
      if !ok { failures := failures + 1; }
    }

    // -------------------------------------------------------------------------------------------
    // What the statements do
    // -------------------------------------------------------------------------------------------

    method SelectBasename(origin: string, name: string) returns (a: Answer)
      ensures a == LookUp(rows, origin, name)
    {
      a := NotFound;
      for i := 0 to |rows|
        invariant a == LookUp(rows[..i], origin, name)
      {
        assert rows[..i + 1][..i] == rows[..i];
        if rows[i].origin == origin && rows[i].name == name && !rows[i].deleted {
          a := if a == NotFound then Found(rows[i].basename) else Invalid;
        }
      }
      assert rows[..|rows|] == rows;
    }

    method SelectVersion(origin: string, name: string) returns (version: nat)
      ensures version == NextVersion(rows, origin, name)
    {
      version := 0;
      for i := 0 to |rows|
        invariant version == NextVersion(rows[..i], origin, name)
      {
        assert rows[..i + 1][..i] == rows[..i];
        if rows[i].origin == origin && rows[i].name == name && rows[i].version + 1 > version {
          version := rows[i].version + 1;
        }
      }
      assert rows[..|rows|] == rows;
    }

    /** The insertion succeeds unless it breaks one of the two constraints. */
    method InsertRow(origin: string, name: string, version: nat, basename: string) returns (ok: bool)
      modifies this`rows
      ensures ok <==> Fits(old(rows), origin, name, version, basename)
      ensures rows == if ok then old(rows) + [Row(origin, name, version, basename, false, false)] else old(rows)
    {
      for i := 0 to |rows|
        invariant rows == old(rows)
        invariant forall j | 0 <= j < i :: rows[j].origin == origin ==>
                    !(rows[j].name == name && rows[j].version == version) && rows[j].basename != basename
      {
        if rows[i].origin == origin
           && ((rows[i].name == name && rows[i].version == version) || rows[i].basename == basename) {
          return false;
        }
      }
      rows := rows + [Row(origin, name, version, basename, false, false)];
      return true;
    }

    method UpdateRows(c: Statement)
      requires Valid() && (c.Corrupt? || c.Delete? || c.DeleteAll?)
      modifies this`rows
      ensures Valid() && rows == Step(old(rows), c)
    {
      ghost var was := rows;
      for i := 0 to |rows|
        invariant |rows| == |was|
        invariant forall j | 0 <= j < |rows| :: rows[j] == if j < i then Update(c, was[j]) else was[j]
      {
        rows := rows[i := Update(c, rows[i])];
      }
      assert rows == UpdateAll(c, was);
      StepKeepsTable(was, c);
    }

    // -------------------------------------------------------------------------------------------
    // The table's methods
    // -------------------------------------------------------------------------------------------

    /** False if a call fails or several rows are live; otherwise the one live row's basename, if there is one. */
    method BasenameHelper(origin: string, name: string) returns (ok: bool, a: Answer)
      modifies this`failures
      ensures old(failures) <= failures && (ok ==> a == LookUp(rows, origin, name) && a != Invalid)
      ensures failures == old(failures) ==> ok == (LookUp(rows, origin, name) != Invalid)
    {
      ok := Succeeds();
      if !ok { return false, NotFound; }
      a := SelectBasename(origin, name);
      return a != Invalid, a;
    }

    method NextVersionHelper(origin: string, name: string) returns (ok: bool, version: nat)
      modifies this`failures
      ensures failures == if ok then old(failures) else old(failures) + 1
      ensures ok ==> version == NextVersion(rows, origin, name)
    {
      ok := Succeeds();
      version := 0;
      if ok { version := SelectVersion(origin, name); }
    }

    method InsertHelper(origin: string, name: string, version: nat, basename: string) returns (ok: bool)
      modifies this
      ensures old(failures) <= failures && (ok ==> Fits(old(rows), origin, name, version, basename))
      ensures failures == old(failures) ==> ok == Fits(old(rows), origin, name, version, basename)
      ensures rows == if ok then old(rows) + [Row(origin, name, version, basename, false, false)] else old(rows)
    {
      ok := Succeeds();
      if ok { ok := InsertRow(origin, name, version, basename); }
    }

    /**
      The name of the file for a database; `others` is what other clients do between the first look and
      the transaction.  It fails only if an SQL call fails, and then it has changed nothing.
     */
    method GetDatabaseBasename(origin: string, name: string, others: seq<Statement>)
      returns (ok: bool, basename: string)
      requires Valid()
      modifies this
      ensures Valid() && old(failures) <= failures && (failures == old(failures) ==> ok)
      ensures !ok ==> rows == old(rows) || rows == Run(old(rows), others)
      ensures ok ==> if Given(old(rows), Look(origin, name)) != NotFound
                     then rows == old(rows) && Found(basename) == Given(rows, Look(origin, name))
                     else
                       var mid := Run(old(rows), others);
                       rows == Step(mid, Create(origin, name)) && Found(basename) == Given(mid, Create(origin, name))
    {
      var a;
      LookUpFinds(rows, origin, name);
      ok, a := BasenameHelper(origin, name);
      if !ok { return false, ""; }
      if a.Found? { return true, a.basename; }
      Interfere(others);
      ok, basename := Transact(origin, name);
    }

    /** The transaction: all of it or nothing. */
    method Transact(origin: string, name: string) returns (ok: bool, basename: string)
      requires Valid()
      modifies this
      ensures Valid() && old(failures) <= failures && (failures == old(failures) ==> ok)
      ensures rows == if ok then Step(old(rows), Create(origin, name)) else old(rows)
      ensures ok ==> Found(basename) == Given(old(rows), Create(origin, name))
    {
      ghost var was := rows;
      var rollback := rows;
      basename := "";
      ok := Succeeds();
      if ok { ok, basename := FindOrCreate(origin, name); }
      if ok { ok := Succeeds(); }
      if !ok { rows := rollback; }
    }

    method FindOrCreate(origin: string, name: string) returns (ok: bool, basename: string)
      requires Valid()
      modifies this
      ensures old(failures) <= failures && (failures == old(failures) ==> ok)
      ensures ok ==> && Valid() && rows == Step(old(rows), Create(origin, name))
                     && Found(basename) == Given(old(rows), Create(origin, name))
    {
      ghost var was := rows;
      StepKeepsTable(was, Create(origin, name));
      LookUpFinds(was, origin, name);
      var a;
      ok, a := BasenameHelper(origin, name);
      if !ok { return false, ""; }
      if a.Found? {
        ReadKeeps(was, Create(origin, name));
        return true, a.basename;
      }
      var version;
      ok, version := NextVersionHelper(origin, name);
      if !ok { return false, ""; }
      basename := if version == 0 then name + "#database" else name + "#database[" + Decimal(version) + "]";
      InsertFits(was, origin, name);
      CreateGives(was, origin, name);
      assert basename == Basename(name, version);
      ok := InsertHelper(origin, name, version, basename);
    }

    method MarkDatabaseCorrupt(origin: string, name: string, basename: string) returns (ok: bool)
      requires Valid()
      modifies this
      ensures Valid() && rows == if ok then Step(old(rows), Corrupt(origin, name, basename)) else old(rows)
      ensures failures == if ok then old(failures) else old(failures) + 1
    {
      ok := Succeeds();
      if ok { UpdateRows(Corrupt(origin, name, basename)); }
    }

    /** The row is marked; then the file is to be removed, unless its directory cannot be found. */
    method DeleteDatabase(origin: string, basename: string, hasDirectory: bool) returns (ok: bool, marked: bool)
      requires Valid()
      modifies this
      ensures Valid() && rows == if marked then Step(old(rows), Delete(origin, basename)) else old(rows)
      ensures failures == (if marked then old(failures) else old(failures) + 1) && ok == (marked && hasDirectory)
    {
      marked := Succeeds();
      if marked { UpdateRows(Delete(origin, basename)); }
      ok := marked && hasDirectory;
    }

    /**
      All rows of the origin are marked, and the files of all rows so marked are to be removed; `others` is
      what other clients do in between.  A step that fails does not stop the next one.
     */
    method DeleteDatabasesForOrigin(origin: string, others: seq<Statement>)
      returns (files: set<string>, marked: bool, selected: bool)
      requires Valid()
      modifies this
      ensures Valid() && rows == Run(if marked then Step(old(rows), DeleteAll(origin)) else old(rows), others)
      ensures failures == old(failures) ==> marked && selected
      ensures marked && selected ==>
                forall i | 0 <= i < |old(rows)| && old(rows)[i].origin == origin :: old(rows)[i].basename in files
      ensures forall f | f in files :: Retired(rows, origin, f)
    {
      marked := Succeeds();
      if marked { UpdateRows(DeleteAll(origin)); }
      ghost var mid := rows;
      Interfere(others);
      selected := Succeeds();
      files := {};
      if selected { files := SelectDeleted(origin); }
      if marked && selected { MarkedAreFound(old(rows), mid, others, rows, origin, files); }
    }

    method SelectDeleted(origin: string) returns (files: set<string>)
      ensures forall i | 0 <= i < |rows| && rows[i].origin == origin && rows[i].deleted :: rows[i].basename in files
      ensures forall f | f in files :: Retired(rows, origin, f)
    {
      files := {};
      for i := 0 to |rows|
        invariant forall j | 0 <= j < i && rows[j].origin == origin && rows[j].deleted :: rows[j].basename in files
        invariant forall f | f in files :: Retired(rows, origin, f)
      {
        if rows[i].deleted && rows[i].origin == origin { files := files + {rows[i].basename}; }
      }
    }

    /** Other clients' steps. */
    method Interfere(others: seq<Statement>)
      requires Valid()
      modifies this`rows
      ensures Valid() && rows == Run(old(rows), others)
    {
      for i := 0 to |others|
        invariant Valid() && rows == Run(old(rows), others[..i])
      {
        assert others[..i + 1][..i] == others[..i];
        StepKeepsTable(rows, others[i]);
        rows := Step(rows, others[i]);
      }
      assert others[..|others|] == others;
    }
  }

  lemma MarkedAreFound(before: seq<Row>, mid: seq<Row>, others: seq<Statement>, after: seq<Row>, origin: string,
                       files: set<string>)
    requires TableOk(before) && mid == Step(before, DeleteAll(origin)) && after == Run(mid, others)
    requires forall i | 0 <= i < |after| && after[i].origin == origin && after[i].deleted :: after[i].basename in files
    ensures forall i | 0 <= i < |before| && before[i].origin == origin :: before[i].basename in files
  {
    StepKeepsTable(before, DeleteAll(origin));
    forall i | 0 <= i < |before| && before[i].origin == origin ensures before[i].basename in files {
      assert mid[i] == Update(DeleteAll(origin), before[i]);
      RunKeepsRow(mid, others, i);
    }
  }

  ghost predicate Fits(rows: seq<Row>, origin: string, name: string, version: nat, basename: string) {
    forall i | 0 <= i < |rows| :: rows[i].origin == origin ==>
      !(rows[i].name == name && rows[i].version == version) && rows[i].basename != basename
  }

  /** The next version breaks no constraint. */
  lemma InsertFits(rows: seq<Row>, origin: string, name: string)
    requires TableOk(rows)
    ensures var v := NextVersion(rows, origin, name); Fits(rows, origin, name, v, Basename(name, v))
  {
    var v := NextVersion(rows, origin, name);
    NextVersionIsCount(rows, origin, name);
    VersionsAreContiguous(rows, origin, name, v);
    forall i | 0 <= i < |rows| && rows[i].origin == origin
      ensures !(rows[i].name == name && rows[i].version == v) && rows[i].basename != Basename(name, v)
    {
      assert RowOk(rows, i);
      assert !(Names(rows[i], origin, name) && rows[i].version == v);
      BasenameIsInjective(rows[i].name, rows[i].version, name, v);
    }
  }
}
