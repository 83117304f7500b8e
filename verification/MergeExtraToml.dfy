/**
 How TOML reads the lines of a document: blanks around a key and around the dots in it do not
 count, quotes around a part of it are not part of it (TOML 1.0.0, sections "Keys" and
 "Table"). And which lines and headers define something twice.
 */
module MergeExtraToml {
  import opened Wrappers
  import opened MergeExtraSpec

  /** A key as its parts between dots. */
  type Path = seq<string>

  predicate Blank(c: char) { c == ' ' || c == '\t' }

  predicate Quote(c: char) { c == '"' || c == '\'' }

  function TrimLeft(s: string): string { if s != "" && Blank(s[0]) then TrimLeft(s[1..]) else s }

  function TrimRight(s: string): string { if s != "" && Blank(s[|s| - 1]) then TrimRight(s[..|s| - 1]) else s }

  function Trim(s: string): string { TrimRight(TrimLeft(s)) }

  function Unquoted(s: string): string {
    if |s| >= 2 && Quote(s[0]) && s[|s| - 1] == s[0] then s[1..|s| - 1] else s
  }

  /** Place of the first `stop` that is not inside quotes, or the length. */
  function StopAt(l: string, stop: char, quote: Option<char>): (i: nat)
    ensures i <= |l|
  {
    if l == "" then 0
    else if quote.None? then
      if l[0] == stop then 0 else 1 + StopAt(l[1..], stop, if Quote(l[0]) then Some(l[0]) else None)
    else if quote == Some('"') && l[0] == '\\' && |l| >= 2 then 2 + StopAt(l[2..], stop, quote)
    else 1 + StopAt(l[1..], stop, if l[0] == quote.value then None else quote)
  }

  function Parts(k: string): (p: Path)
    ensures p != []
    decreases |k|
  {
    var i := StopAt(k, '.', None);
    [Unquoted(Trim(k[..i]))] + if i == |k| then [] else Parts(k[i + 1..])
  }

  /** The key a line defines, if it defines one. */
  function Key(l: string): (r: Option<Path>)
    ensures r.Some? ==> r.value != []
  {
    var i := StopAt(l, '=', None);
    if i == |l| || StartsWith(TrimLeft(l), "#") then None else Some(Parts(l[..i]))
  }

  datatype Head = Head(path: Path, many: bool)

  /** The table, or the element of an array of tables, that a header opens. */
  function HeadOf(h: string): (r: Head)
    ensures r.path != []
  {
    var many := StartsWith(h, "[[");
    var t := if many then h[2..] else if h == "" then "" else h[1..];
    Head(Parts(t[..StopAt(t, ']', None)]), many)
  }

  // ---- definitions ----

  /** A key in the lines before the first table (section 0) or under the table before section
      `section`, or a header. */
  datatype Def = Line(section: nat, at: Path, many: bool, key: Path) | Opens(head: Head)

  predicate Comparable(p: Path, q: Path) { p <= q || q <= p }

  /** A value where the header opens a table, or a dotted key that has made it one already. The
      elements of an array of tables have their keys for themselves. */
  predicate LineOpens(at: Path, many: bool, key: Path, head: Head) {
    !many && (at + key <= head.path || (head.path <= at + key && |head.path| > |at|))
  }

  predicate Conflict(a: Def, b: Def) {
    match (a, b)
    case (Line(s, _, _, k), Line(t, _, _, l)) => s == t && Comparable(k, l)
    case (Line(_, p, y, k), Opens(h)) => LineOpens(p, y, k, h)
    case (Opens(h), Line(_, p, y, k)) => LineOpens(p, y, k, h)
    case (Opens(g), Opens(h)) => g.path == h.path && !(g.many && h.many)
  }

  function LineDefs(section: nat, at: Path, many: bool, body: Lines): seq<Def> {
    if body == [] then [] else
    LineDefs(section, at, many, body[..|body| - 1]) +
    match Key(body[|body| - 1]) case Some(k) => [Line(section, at, many, k)] case None => []
  }

  function TableDefs(t: nat, header: string, body: Lines): seq<Def> {
    [Opens(HeadOf(header))] + LineDefs(t + 1, HeadOf(header).path, HeadOf(header).many, body)
  }

  function TablesDefs(tables: seq<(string, Lines)>): seq<Def> {
    if tables == [] then [] else
    var n := |tables| - 1;
    TablesDefs(tables[..n]) + TableDefs(n, tables[n].0, tables[n].1)
  }

  function Defs(d: Doc): seq<Def> { LineDefs(0, [], false, d.root) + TablesDefs(d.tables) }

  ghost predicate Distinct(q: seq<Def>) {
    forall i, j :: 0 <= i < j < |q| ==> !Conflict(q[i], q[j])
  }

  /** Nothing in the document is defined twice. */
  ghost predicate DistinctDoc(d: Doc) { Distinct(Defs(d)) }

  ghost predicate Apart(n: seq<Def>, o: seq<Def>) {
    forall i, j :: 0 <= i < |n| && 0 <= j < |o| ==> !Conflict(n[i], o[j])
  }

  lemma Symmetric(a: Def, b: Def)
    ensures Conflict(a, b) <==> Conflict(b, a)
  {
  }

  lemma DistinctConcat(a: seq<Def>, b: seq<Def>)
    ensures Distinct(a + b) <==> Distinct(a) && Distinct(b) && Apart(a, b)
  {
    var c := a + b;
    assert forall i :: 0 <= i < |a| ==> c[i] == a[i];
    assert forall i :: 0 <= i < |b| ==> c[|a| + i] == b[i];
    if Distinct(c) {
      forall i, j | 0 <= i < j < |b| ensures !Conflict(b[i], b[j]) { assert c[|a| + i] == b[i] && c[|a| + j] == b[j]; }
      forall i, j | 0 <= i < |a| && 0 <= j < |b| ensures !Conflict(a[i], b[j]) { assert c[i] == a[i] && c[|a| + j] == b[j]; }
    }
    if Distinct(a) && Distinct(b) && Apart(a, b) {
      forall i, j | 0 <= i < j < |c| ensures !Conflict(c[i], c[j]) {
        if i >= |a| {
          assert c[i] == b[i - |a|] && c[j] == b[j - |a|];
        } else if j >= |a| {
          assert c[i] == a[i] && c[j] == b[j - |a|];
        }
      }
    }
  }

  lemma ApartConcat(n: seq<Def>, a: seq<Def>, b: seq<Def>)
    ensures Apart(n, a + b) <==> Apart(n, a) && Apart(n, b)
    ensures Apart(a + b, n) <==> Apart(a, n) && Apart(b, n)
    ensures Apart(n, a) <==> Apart(a, n)
  {
    var c := a + b;
    assert forall i :: 0 <= i < |a| ==> c[i] == a[i];
    assert forall i :: 0 <= i < |b| ==> c[|a| + i] == b[i];
    forall x, y ensures Conflict(x, y) <==> Conflict(y, x) { Symmetric(x, y); }
  }

  /** New definitions, wherever they are put, keep all distinct exactly when they are distinct
      among themselves and apart from the rest. */
  lemma InsertedDistinct(a: seq<Def>, n: seq<Def>, b: seq<Def>)
    ensures Distinct(a + n + b) <==> Distinct(a + b) && Distinct(n) && Apart(n, a + b)
  {
    DistinctConcat(a + n, b);
    DistinctConcat(a, n);
    DistinctConcat(a, b);
    ApartConcat(b, a, n);
    ApartConcat(n, a, b);
    ApartConcat(a + n, b, []);
    ApartConcat(a, b, []);
    ApartConcat(n, b, []);
  }

  lemma {:induction false} LineDefsConcat(section: nat, at: Path, many: bool, a: Lines, b: Lines)
    ensures LineDefs(section, at, many, a + b) == LineDefs(section, at, many, a) + LineDefs(section, at, many, b)
  {
    if b == [] {
      assert a + b == a;
    } else {
      LineDefsConcat(section, at, many, a, b[..|b| - 1]);
      assert (a + b)[..|a + b| - 1] == a + b[..|b| - 1];
    }
  }

  predicate Makes(l: string, section: nat, at: Path, many: bool, x: Def) {
    Key(l).Some? && x == Line(section, at, many, Key(l).value)
  }

  ghost predicate SomeMakes(body: Lines, section: nat, at: Path, many: bool, x: Def) {
    exists i :: 0 <= i < |body| && Makes(body[i], section, at, many, x)
  }

  lemma SomeMakesSnoc(body: Lines, section: nat, at: Path, many: bool, x: Def)
    requires body != []
    ensures var n := |body| - 1;
            SomeMakes(body, section, at, many, x) <==> SomeMakes(body[..n], section, at, many, x) || Makes(body[n], section, at, many, x)
  {
    var n := |body| - 1;
    assert forall i :: 0 <= i < n ==> body[..n][i] == body[i];
  }

  lemma {:induction false} LineDefsMember(section: nat, at: Path, many: bool, body: Lines, x: Def)
    ensures x in LineDefs(section, at, many, body) <==> SomeMakes(body, section, at, many, x)
  {
    if body != [] {
      LineDefsMember(section, at, many, body[..|body| - 1], x);
      SomeMakesSnoc(body, section, at, many, x);
    }
  }

  function Under(t: nat, header: string, body: Lines): seq<Def> {
    LineDefs(t + 1, HeadOf(header).path, HeadOf(header).many, body)
  }

  function More(table: (string, Lines), more: Lines): (string, Lines) { (table.0, more + table.1) }

  lemma MoreDefs(t: nat, table: (string, Lines), more: Lines)
    ensures var m := More(table, more);
            TableDefs(t, m.0, m.1) == [Opens(HeadOf(table.0))] + Under(t, table.0, more) + Under(t, table.0, table.1)
  {
    var h := HeadOf(table.0);
    LineDefsConcat(t + 1, h.path, h.many, more, table.1);
    Grouped([Opens(h)], Under(t, table.0, more), Under(t, table.0, table.1));
  }

  lemma Grouped(a: seq<Def>, b: seq<Def>, c: seq<Def>)
    ensures a + (b + c) == a + b + c
  {
  }

  lemma LastReplaced(tables: seq<(string, Lines)>, more: Lines) returns (a: seq<Def>, b: seq<Def>)
    requires tables != []
    ensures var n := |tables| - 1;
            && TablesDefs(tables) == a + b
            && TablesDefs(tables[n := More(tables[n], more)]) == a + Under(n, tables[n].0, more) + b
  {
    var n := |tables| - 1;
    var init, o, u, v := TablesDefs(tables[..n]), [Opens(HeadOf(tables[n].0))], Under(n, tables[n].0, more), Under(n, tables[n].0, tables[n].1);
    assert tables[n := More(tables[n], more)][..n] == tables[..n];
    MoreDefs(n, tables[n], more);
    a, b := init + o, v;
    Grouped(init, o, v);
    Grouped(init, o + u, v);
    Grouped(init, o, u);
  }

  /** More lines in front of a table's own are more definitions there. */
  lemma {:induction false} TablesReplaced(tables: seq<(string, Lines)>, t: nat, more: Lines) returns (a: seq<Def>, b: seq<Def>)
    requires t < |tables|
    ensures TablesDefs(tables) == a + b
    ensures TablesDefs(tables[t := More(tables[t], more)]) == a + Under(t, tables[t].0, more) + b
  {
    var n := |tables| - 1;
    if t == n {
      a, b := LastReplaced(tables, more);
    } else {
      var b0;
      a, b0 := TablesReplaced(tables[..n], t, more);
      var tables', last := tables[t := More(tables[t], more)], TableDefs(n, tables[n].0, tables[n].1);
      assert tables'[..n] == tables[..n][t := More(tables[t], more)];
      b := b0 + last;
      Grouped(a, b0, last);
      Grouped(a + Under(t, tables[t].0, more), b0, last);
    }
  }

  lemma BlankDefines(section: nat, at: Path, many: bool)
    ensures LineDefs(section, at, many, [""]) == []
  {
    assert [""][..0] == [] && Key("") == None;
  }

  /** A blank line defines nothing. */
  lemma BlankSame(d: Doc)
    ensures Defs(Extend(d, [""])) == Defs(d)
  {
    var x := Extend(d, [""]);
    if d.tables == [] {
      LineDefsConcat(0, [], false, d.root, [""]);
      BlankDefines(0, [], false);
    } else {
      var n := |d.tables| - 1;
      var h := HeadOf(d.tables[n].0);
      LineDefsConcat(n + 1, h.path, h.many, d.tables[n].1, [""]);
      BlankDefines(n + 1, h.path, h.many);
      assert x.tables[..n] == d.tables[..n];
    }
  }
}
