/**
 Items whose keys are all bare: letters, digits, underscores and dashes. Whatever the rendered
 lines are, what the checks miss can be read off them and the item.
 */
module MergeExtraBare {
  import opened Wrappers
  import opened MergeExtraSpec
  import opened MergeExtra
  import opened MergeExtraToml
  import opened MergeExtraKeys

  // ---- how bare keys are read ----

  predicate BareChar(c: char) { 'A' <= c <= 'Z' || 'a' <= c <= 'z' || '0' <= c <= '9' || c == '_' || c == '-' }

  predicate BareChars(k: string) { forall i :: 0 <= i < |k| ==> BareChar(k[i]) }

  predicate Bare(k: string) { k != "" && BareChars(k) }

  lemma {:induction false} StopPast(k: string, rest: string, stop: char)
    requires BareChars(k) && !BareChar(stop)
    ensures StopAt(k + rest, stop, None) == |k| + StopAt(rest, stop, None)
  {
    if k == "" {
      assert k + rest == rest;
    } else {
      StopPast(k[1..], rest, stop);
      assert (k + rest)[1..] == k[1..] + rest;
    }
  }

  lemma TrimBare(k: string)
    requires Bare(k)
    ensures Trim(k) == k && Trim(k + " ") == k && Unquoted(k) == k
  {
    assert !Blank(k[0]) && !Blank(k[|k| - 1]);
    assert (k + " ")[..|k|] == k && (k + " ")[0] == k[0];
    assert TrimLeft(k + " ") == k + " ";
    assert TrimRight(k + " ") == TrimRight(k);
  }

  lemma PartsBare(k: string)
    requires Bare(k)
    ensures Parts(k) == [k] && Parts(k + " ") == [k]
  {
    TrimBare(k);
    StopPast(k, "", '.');
    StopPast(k, " ", '.');
    assert k + "" == k && k[..|k|] == k && (k + " ")[..|k| + 1] == k + " ";
  }

  /** A bare key is read as it is written. */
  lemma KeyBare(k: string, text: string)
    requires Bare(k)
    ensures Key(Written(k, text)) == Some([k]) && StartsWith(Written(k, text), k + " ")
  {
    var l, rest := Written(k, text), " = " + text;
    assert l == k + rest;
    StopPast(k, rest, '=');
    assert rest[0] == ' ' && rest[1..][0] == '=';
    assert StopAt(rest, '=', None) == 1;
    assert l[..|k| + 1] == k + " ";
    PartsBare(k);
    assert l[0] == k[0] && TrimLeft(l) == l && l[..1] != "#";
  }

  lemma HeadBare(k: string)
    requires Bare(k)
    ensures HeadOf("[" + k + "]") == Head([k], false)
    ensures HeadOf("[[" + k + "]]") == Head([k], true)
  {
    var h, g := "[" + k + "]", "[[" + k + "]]";
    assert h[1] == k[0] && h[..2][1] == k[0];
    assert h[1..] == k + "]" && g[2..] == k + "]]" && g[..2] == "[[";
    StopPast(k, "]", ']');
    StopPast(k, "]]", ']');
    assert (k + "]")[..|k|] == k && (k + "]]")[..|k|] == k;
    PartsBare(k);
  }

  // ---- what a rendered document has ----

  /** The line defines `k`, or something below it. */
  predicate Reads(l: string, k: string) { Key(l).Some? && Key(l).value[0] == k }

  /** It does so in another spelling than the one the check looks for: `k` and a blank. */
  predicate Unseen(l: string, k: string) { Reads(l, k) && !StartsWith(l, k + " ") }

  ghost predicate SomeReads(body: Lines, k: string) { exists i :: 0 <= i < |body| && Reads(body[i], k) }

  ghost predicate SomeUnseen(body: Lines, k: string) { exists i :: 0 <= i < |body| && Unseen(body[i], k) }

  /** A table at `p` or below it. */
  ghost predicate HasFrom(d: Doc, p: Path) { exists t :: 0 <= t < |d.tables| && p <= HeadOf(d.tables[t].0).path }

  ghost predicate HasAt(d: Doc, p: Path) { exists t :: 0 <= t < |d.tables| && HeadOf(d.tables[t].0).path == p }

  predicate OtherHead(h: string, k: string) { HeadOf(h).path == [k] && h != "[" + k + "]" }

  /** A header of that name in another spelling, or an array of tables. */
  ghost predicate HasOther(d: Doc, k: string) { exists t :: 0 <= t < |d.tables| && OtherHead(d.tables[t].0, k) }

  /** The lines under the first header `[k]`. */
  function BodyOf(d: Doc, k: string): Lines {
    var t := TableIndex(d.tables, "[" + k + "]");
    if t < |d.tables| then d.tables[t].1 else []
  }

  // ---- its definitions ----

  /** Only the lines before the first table are under no name. */
  ghost predicate Regular(x: Def) {
    match x
    case Line(s, at, many, k) => k != [] && (s == 0 <==> at == []) && (s == 0 ==> !many)
    case Opens(h) => h.path != []
  }

  ghost predicate ByTable(t: nat, table: (string, Lines), x: Def) { x in TableDefs(t, table.0, table.1) }

  ghost predicate KeyIn(body: Lines, k: Path) {
    exists i :: 0 <= i < |body| && Key(body[i]) == Some(k)
  }

  lemma LineFrom(s: nat, at: Path, many: bool, body: Lines, x: Def)
    ensures x in LineDefs(s, at, many, body) <==> x.Line? && x == Line(s, at, many, x.key) && KeyIn(body, x.key)
  {
    LineDefsMember(s, at, many, body, x);
  }

  lemma ByTableIs(t: nat, table: (string, Lines), x: Def)
    ensures var h := HeadOf(table.0);
            ByTable(t, table, x) <==> x == Opens(h) || (x.Line? && x == Line(t + 1, h.path, h.many, x.key) && KeyIn(table.1, x.key))
  {
    LineFrom(t + 1, HeadOf(table.0).path, HeadOf(table.0).many, table.1, x);
  }

  lemma LastTable(tables: seq<(string, Lines)>, x: Def)
    requires tables != []
    ensures x in TablesDefs(tables) <==> x in TablesDefs(tables[..|tables| - 1]) || ByTable(|tables| - 1, tables[|tables| - 1], x)
  {
  }

  lemma {:induction false} TablesHave(tables: seq<(string, Lines)>, t: nat, x: Def)
    requires t < |tables| && ByTable(t, tables[t], x)
    ensures x in TablesDefs(tables)
  {
    LastTable(tables, x);
    if t < |tables| - 1 { TablesHave(tables[..|tables| - 1], t, x); }
  }

  lemma {:induction false} TablesFrom(tables: seq<(string, Lines)>, x: Def) returns (t: nat)
    requires x in TablesDefs(tables)
    ensures t < |tables| && ByTable(t, tables[t], x)
  {
    LastTable(tables, x);
    t := |tables| - 1;
    if !ByTable(t, tables[t], x) { t := TablesFrom(tables[..|tables| - 1], x); }
  }

  lemma DefsRegular(d: Doc, x: Def)
    requires x in Defs(d)
    ensures Regular(x)
  {
    if x in LineDefs(0, [], false, d.root) {
      LineFrom(0, [], false, d.root, x);
    } else {
      var t := TablesFrom(d.tables, x);
      ByTableIs(t, d.tables[t], x);
    }
  }

  lemma Prefixes(p: Path, k: string)
    requires p != []
    ensures ([k] <= p <==> p[0] == k) && (p <= [k] <==> p == [k])
  {
    assert [k][0] == k;
  }

  /** What conflicts with a key before the first table. */
  lemma RootConflicts(k: string, y: Def)
    requires Regular(y)
    ensures Conflict(Line(0, [], false, [k]), y) <==>
            (y.Line? && y.section == 0 && y.key[0] == k) || (y.Opens? && y.head.path[0] == k)
  {
    assert [] + [k] == [k];
    if y.Line? { Prefixes(y.key, k); } else { Prefixes(y.head.path, k); }
  }

  /** With one in a table. */
  lemma EntryConflicts(t: nat, k: string, e: string, y: Def)
    requires Regular(y)
    ensures Conflict(Line(t + 1, [k], false, [e]), y) <==>
            (y.Line? && y.section == t + 1 && y.key[0] == e) || (y.Opens? && [k, e] <= y.head.path)
  {
    assert [k] + [e] == [k, e];
    if y.Line? { Prefixes(y.key, e); }
  }

  /** With a table. */
  lemma HeadConflicts(k: string, y: Def)
    requires Regular(y)
    ensures Conflict(Opens(Head([k], false)), y) <==>
            (y.Line? && y.section == 0 && y.key[0] == k) || (y.Opens? && y.head.path == [k])
  {
    match y
    case Line(s, at, many, l) =>
      assert [] + l == l;
      Prefixes(l, k);
      if s > 0 { assert |at + l| >= 2; }
    case Opens(h) =>
  }

  ghost predicate SectionReads(d: Doc, s: nat, k: string) {
    if s == 0 then SomeReads(d.root, k) else s <= |d.tables| && SomeReads(d.tables[s - 1].1, k)
  }

  /** Which section a line belongs to. */
  lemma LineAt(d: Doc, y: Def)
    requires y in Defs(d) && y.Line?
    ensures y.key != [] && SectionReads(d, y.section, y.key[0])
  {
    DefsRegular(d, y);
    if y in LineDefs(0, [], false, d.root) {
      LineFrom(0, [], false, d.root, y);
    } else {
      var t := TablesFrom(d.tables, y);
      ByTableIs(t, d.tables[t], y);
    }
  }

  lemma ReadAt(d: Doc, s: nat, k: string) returns (y: Def)
    requires SectionReads(d, s, k)
    ensures y in Defs(d) && y.Line? && y.section == s && y.key != [] && y.key[0] == k
  {
    if s == 0 {
      var i :| 0 <= i < |d.root| && Reads(d.root[i], k);
      y := Line(0, [], false, Key(d.root[i]).value);
      LineFrom(0, [], false, d.root, y);
    } else {
      var t := s - 1;
      var i :| 0 <= i < |d.tables[t].1| && Reads(d.tables[t].1[i], k);
      y := Line(s, HeadOf(d.tables[t].0).path, HeadOf(d.tables[t].0).many, Key(d.tables[t].1[i]).value);
      ByTableIs(t, d.tables[t], y);
      TablesHave(d.tables, t, y);
    }
  }

  lemma HeadDef(d: Doc, t: nat)
    requires t < |d.tables|
    ensures Opens(HeadOf(d.tables[t].0)) in Defs(d)
  {
    HeadIn(d.tables, t);
  }

  lemma HeadAt(d: Doc, h: Head) returns (t: nat)
    requires Opens(h) in Defs(d)
    ensures t < |d.tables| && HeadOf(d.tables[t].0) == h
  {
    LineFrom(0, [], false, d.root, Opens(h));
    t := TablesFrom(d.tables, Opens(h));
    ByTableIs(t, d.tables[t], Opens(h));
  }

  // ---- what is apart from it ----

  /** The new definition is apart from the document exactly when no member conflicts with it. */
  lemma OneApart(x: Def, o: seq<Def>)
    ensures Apart([x], o) <==> forall y :: y in o ==> !Conflict(x, y)
  {
    if Apart([x], o) {
      forall y | y in o ensures !Conflict(x, y) {
        var j :| 0 <= j < |o| && o[j] == y;
        assert !Conflict([x][0], o[j]);
      }
    }
  }

  lemma RootApart(d: Doc, k: string)
    ensures Apart([Line(0, [], false, [k])], Defs(d)) <==> !SomeReads(d.root, k) && !HasFrom(d, [k])
  {
    var x := Line(0, [], false, [k]);
    OneApart(x, Defs(d));
    if SomeReads(d.root, k) {
      var y := ReadAt(d, 0, k);
      DefsRegular(d, y);
      RootConflicts(k, y);
    } else if HasFrom(d, [k]) {
      var t :| 0 <= t < |d.tables| && [k] <= HeadOf(d.tables[t].0).path;
      HeadDef(d, t);
      RootConflicts(k, Opens(HeadOf(d.tables[t].0)));
    } else {
      forall y | y in Defs(d) ensures !Conflict(x, y) { RootUnmet(d, k, y); }
    }
  }

  lemma RootUnmet(d: Doc, k: string, y: Def)
    requires y in Defs(d) && !SomeReads(d.root, k) && !HasFrom(d, [k])
    ensures !Conflict(Line(0, [], false, [k]), y)
  {
    DefsRegular(d, y);
    RootConflicts(k, y);
    if y.Line? {
      LineAt(d, y);
    } else {
      var t := HeadAt(d, y.head);
      Prefixes(y.head.path, k);
    }
  }

  lemma EntryApart(d: Doc, t: nat, k: string, e: string)
    ensures Apart([Line(t + 1, [k], false, [e])], Defs(d)) <==> !SectionReads(d, t + 1, e) && !HasFrom(d, [k, e])
  {
    var x := Line(t + 1, [k], false, [e]);
    OneApart(x, Defs(d));
    if SectionReads(d, t + 1, e) {
      var y := ReadAt(d, t + 1, e);
      DefsRegular(d, y);
      EntryConflicts(t, k, e, y);
    } else if HasFrom(d, [k, e]) {
      var u :| 0 <= u < |d.tables| && [k, e] <= HeadOf(d.tables[u].0).path;
      HeadDef(d, u);
      EntryConflicts(t, k, e, Opens(HeadOf(d.tables[u].0)));
    } else {
      forall y | y in Defs(d) ensures !Conflict(x, y) { EntryUnmet(d, t, k, e, y); }
    }
  }

  lemma EntryUnmet(d: Doc, t: nat, k: string, e: string, y: Def)
    requires y in Defs(d) && !SectionReads(d, t + 1, e) && !HasFrom(d, [k, e])
    ensures !Conflict(Line(t + 1, [k], false, [e]), y)
  {
    DefsRegular(d, y);
    EntryConflicts(t, k, e, y);
    if y.Line? {
      LineAt(d, y);
    } else {
      var u := HeadAt(d, y.head);
    }
  }

  lemma HeadApart(d: Doc, k: string)
    ensures Apart([Opens(Head([k], false))], Defs(d)) <==> !SomeReads(d.root, k) && !HasAt(d, [k])
  {
    var x := Opens(Head([k], false));
    OneApart(x, Defs(d));
    if SomeReads(d.root, k) {
      var y := ReadAt(d, 0, k);
      DefsRegular(d, y);
      HeadConflicts(k, y);
    } else if HasAt(d, [k]) {
      var t :| 0 <= t < |d.tables| && HeadOf(d.tables[t].0).path == [k];
      HeadDef(d, t);
      HeadConflicts(k, Opens(HeadOf(d.tables[t].0)));
    } else {
      forall y | y in Defs(d) ensures !Conflict(x, y) { HeadUnmet(d, k, y); }
    }
  }

  lemma HeadUnmet(d: Doc, k: string, y: Def)
    requires y in Defs(d) && !SomeReads(d.root, k) && !HasAt(d, [k])
    ensures !Conflict(Opens(Head([k], false)), y)
  {
    DefsRegular(d, y);
    HeadConflicts(k, y);
    if y.Line? {
      LineAt(d, y);
    } else {
      var t := HeadAt(d, y.head);
    }
  }

  // ---- one item ----

  ghost predicate BareVal(key: string, val: Val) { Bare(key) && (val.Table? ==> BareEntries(val.entries)) }

  ghost predicate BareEntries(entries: seq<(string, Item)>) { forall i :: 0 <= i < |entries| ==> Bare(entries[i].0) }

  ghost predicate DistinctNames(entries: seq<(string, Item)>) {
    forall i, j :: 0 <= i < j < |entries| ==> entries[i].0 != entries[j].0
  }

  ghost predicate HarmlessEntry(d: Doc, k: string, e: string) { !SomeUnseen(BodyOf(d, k), e) && !HasFrom(d, [k, e]) }

  ghost predicate HarmlessEntries(d: Doc, k: string, entries: seq<(string, Item)>) {
    forall i :: 0 <= i < |entries| ==> HarmlessEntry(d, k, entries[i].0)
  }

  /**
   A scalar is not spelled another way before the first table, and is no table. The keys of a
   table differ, its name is no scalar and no other spelling of a table or an array, and no key
   of it is spelled another way under its header or is a table.
   */
  ghost predicate Harmless(d: Doc, key: string, val: Val) {
    match val
    case Scalar(_) => !SomeUnseen(d.root, key) && !HasFrom(d, [key])
    case Table(entries) =>
      DistinctNames(entries) && !SomeReads(d.root, key) && !HasOther(d, key) && HarmlessEntries(d, key, entries)
  }

  /** What passes the check and is there nevertheless is spelled another way. */
  lemma CheckedRoot(lines: Lines, key: string)
    requires !ClashesPlain(lines, key)
    ensures SomeReads(Parse(lines).root, key) <==> SomeUnseen(Parse(lines).root, key)
  {
    var root := Parse(lines).root;
    RootIs(lines);
    forall i | 0 <= i < |root| ensures Reads(root[i], key) <==> Unseen(root[i], key) {
      assert root[i] == lines[i] && !IsHeader(lines[i]);
    }
  }

  lemma ScalarDef(key: string, text: string)
    requires Bare(key)
    ensures LineDefs(0, [], false, [Written(key, text)]) == [Line(0, [], false, [key])]
  {
    KeyBare(key, text);
    assert [Written(key, text)][..0] == [];
  }

  lemma {:induction false} EqualsPast(k: string, text: string)
    requires BareChars(k)
    ensures KeyOf(Written(k, text)) == k
  {
    var l := Written(k, text);
    if k == "" {
      assert l[..3] == " = ";
    } else {
      EqualsPast(k[1..], text);
      assert l[1..] == Written(k[1..], text);
      assert l[0] == k[0] && l[..3][0] == k[0];
    }
  }

  lemma {:induction false} EntryAt(entries: seq<(string, Item)>, i: nat)
    requires EntryLines(entries).Ok? && i < |entries|
    ensures |EntryLines(entries).value| == |entries| && entries[i].1.Value?
    ensures EntryLines(entries).value[i] == Written(entries[i].0, entries[i].1.text)
  {
    var n := |entries| - 1;
    if n > 0 { EntryAt(entries[..n], if i < n then i else 0); }
  }

  /** The entries of a table define their keys, one by one. */
  ghost predicate Defines(q: seq<Def>, s: nat, at: Path, many: bool, entries: seq<(string, Item)>) {
    |q| == |entries| && forall i :: 0 <= i < |q| ==> q[i] == Line(s, at, many, [entries[i].0])
  }

  lemma {:induction false} EntryDefs(s: nat, at: Path, many: bool, entries: seq<(string, Item)>)
    requires EntryLines(entries).Ok? && BareEntries(entries)
    ensures Defines(LineDefs(s, at, many, EntryLines(entries).value), s, at, many, entries)
  {
    if entries != [] {
      var n := |entries| - 1;
      var es := EntryLines(entries).value;
      EntryDefs(s, at, many, entries[..n]);
      EntryAt(entries, n);
      KeyBare(entries[n].0, entries[n].1.text);
      assert es[..n] == EntryLines(entries[..n]).value;
      DefinesSnoc(LineDefs(s, at, many, es[..n]), s, at, many, entries);
    }
  }

  lemma DefinesSnoc(q: seq<Def>, s: nat, at: Path, many: bool, entries: seq<(string, Item)>)
    requires entries != [] && Defines(q, s, at, many, entries[..|entries| - 1])
    ensures Defines(q + [Line(s, at, many, [entries[|entries| - 1].0])], s, at, many, entries)
  {
  }

  lemma SameSingle(a: string, b: string)
    ensures Comparable([a], [b]) <==> a == b
  {
    assert [a][0] == a && [b][0] == b;
  }

  lemma DefinesDistinct(q: seq<Def>, s: nat, at: Path, many: bool, entries: seq<(string, Item)>)
    requires Defines(q, s, at, many, entries)
    ensures Distinct(q) <==> DistinctNames(entries)
  {
    forall i, j | 0 <= i < j < |q| ensures Conflict(q[i], q[j]) <==> entries[i].0 == entries[j].0 {
      SameSingle(entries[i].0, entries[j].0);
    }
  }

  ghost predicate Unclashed(body: Lines, es: Lines) {
    forall i :: 0 <= i < |es| ==> !Clashes(body, KeyOf(es[i]))
  }

  lemma CheckedEntry(body: Lines, entries: seq<(string, Item)>, i: nat)
    requires EntryLines(entries).Ok? && BareEntries(entries) && Unclashed(body, EntryLines(entries).value) && i < |entries|
    ensures SomeReads(body, entries[i].0) <==> SomeUnseen(body, entries[i].0)
  {
    EntryAt(entries, i);
    EqualsPast(entries[i].0, entries[i].1.text);
    assert !Clashes(body, entries[i].0);
  }

  lemma ApartEach(q: seq<Def>, o: seq<Def>)
    ensures Apart(q, o) <==> forall i :: 0 <= i < |q| ==> Apart([q[i]], o)
  {
    if forall i :: 0 <= i < |q| ==> Apart([q[i]], o) {
      forall i, j | 0 <= i < |q| && 0 <= j < |o| ensures !Conflict(q[i], o[j]) {
        assert Apart([q[i]], o) && [q[i]][0] == q[i];
      }
    }
  }

  lemma UnderDefines(t: nat, key: string, entries: seq<(string, Item)>)
    requires EntryLines(entries).Ok? && BareEntries(entries) && Bare(key)
    ensures Defines(Under(t, "[" + key + "]", EntryLines(entries).value), t + 1, [key], false, entries)
  {
    HeadBare(key);
    EntryDefs(t + 1, [key], false, entries);
  }

  /** Entries that pass the check, against the document. */
  lemma EntriesApart(d: Doc, q: seq<Def>, key: string, entries: seq<(string, Item)>)
    requires EntryLines(entries).Ok? && BareEntries(entries) && Unclashed(BodyOf(d, key), EntryLines(entries).value)
    requires Defines(q, TableIndex(d.tables, "[" + key + "]") + 1, [key], false, entries)
    ensures Apart(q, Defs(d)) <==> HarmlessEntries(d, key, entries)
  {
    var t := TableIndex(d.tables, "[" + key + "]");
    ApartEach(q, Defs(d));
    forall i | 0 <= i < |q| ensures Apart([q[i]], Defs(d)) <==> HarmlessEntry(d, key, entries[i].0) {
      EntryApart(d, t, key, entries[i].0);
      CheckedEntry(BodyOf(d, key), entries, i);
      assert t == |d.tables| ==> !SomeReads(BodyOf(d, key), entries[i].0);
    }
  }

  /** The body the entries are checked against is the table's. */
  lemma {:induction false} BodyIs(lines: Lines, h: string)
    requires IsHeader(h) && IndexOf(lines, h) < |lines|
    ensures var at := IndexOf(lines, h); var ts := Parse(lines).tables; var t := TableIndex(ts, h);
            t < |ts| && ts[t].1 == lines[at + 1..HeaderFrom(lines, at + 1)]
  {
    var at := IndexOf(lines, h);
    var p, e := Parse(lines[..at]), Parse(lines[at + 1..]);
    AroundTableNow(lines, h);
    Middle(p.tables, (h, e.root), e.tables);
    RootAfter(lines, at + 1);
  }

  lemma Middle(a: seq<(string, Lines)>, x: (string, Lines), b: seq<(string, Lines)>)
    ensures |a| < |a + [x] + b| && (a + [x] + b)[|a|] == x
  {
  }

  lemma {:induction false} RootAfter(lines: Lines, n: nat)
    requires n <= |lines|
    ensures Parse(lines[n..]).root == lines[n..HeaderFrom(lines, n)]
  {
    RootIs(lines[n..]);
    HeaderShift(lines, n);
    assert lines[n..][..HeaderFrom(lines[n..], 0)] == lines[n..HeaderFrom(lines, n)];
  }

  lemma HeaderShift(lines: Lines, n: nat)
    requires n <= |lines|
    ensures HeaderFrom(lines, n) == n + HeaderFrom(lines[n..], 0)
  {
    var j := HeaderFrom(lines[n..], 0);
    assert forall k :: n <= k < n + j ==> lines[k] == lines[n..][k - n];
    if j < |lines[n..]| { assert lines[n + j] == lines[n..][j]; }
  }

  lemma MergedUnclashed(lines: Lines, key: string, es: Lines)
    requires MergeTable(lines, "[" + key + "]", es).Ok?
    ensures Unclashed(BodyOf(Parse(lines), key), es)
  {
    var h := "[" + key + "]";
    BracketsAreHeader(key);
    HeaderLineIsTable(lines, h);
    if h in lines {
      assert IndexOf(lines, h) < |lines|;
      BodyIs(lines, h);
    }
  }

  lemma HeadIn(tables: seq<(string, Lines)>, t: nat)
    requires t < |tables|
    ensures Opens(HeadOf(tables[t].0)) in TablesDefs(tables)
  {
    ByTableIs(t, tables[t], Opens(HeadOf(tables[t].0)));
    TablesHave(tables, t, Opens(HeadOf(tables[t].0)));
  }

  lemma FirstApart(a: seq<Def>, b: seq<Def>, x: Def)
    requires Apart(a, b) && x in a && b != []
    ensures !Conflict(x, b[0])
  {
    var i :| 0 <= i < |a| && a[i] == x;
  }

  lemma {:induction false} HeadsDiffer(tables: seq<(string, Lines)>, t: nat, u: nat)
    requires t < u < |tables| && Distinct(TablesDefs(tables))
    ensures !Conflict(Opens(HeadOf(tables[t].0)), Opens(HeadOf(tables[u].0)))
  {
    var n := |tables| - 1;
    var a, b := TablesDefs(tables[..n]), TableDefs(n, tables[n].0, tables[n].1);
    DistinctConcat(a, b);
    if u < n {
      HeadsDiffer(tables[..n], t, u);
    } else {
      LastDiffers(tables, t, a, b);
    }
  }

  lemma {:induction false} LastDiffers(tables: seq<(string, Lines)>, t: nat, a: seq<Def>, b: seq<Def>)
    requires t < |tables| - 1 && a == TablesDefs(tables[..|tables| - 1]) && Apart(a, b)
    requires b != [] && b[0] == Opens(HeadOf(tables[|tables| - 1].0))
    ensures !Conflict(Opens(HeadOf(tables[t].0)), Opens(HeadOf(tables[|tables| - 1].0)))
  {
    HeadIn(tables[..|tables| - 1], t);
    FirstApart(a, b, Opens(HeadOf(tables[t].0)));
  }

  lemma OneHead(d: Doc, t: nat, u: nat)
    requires DistinctDoc(d) && t < |d.tables| && u < |d.tables| && t != u && !HeadOf(d.tables[t].0).many
    ensures HeadOf(d.tables[t].0).path != HeadOf(d.tables[u].0).path
  {
    DistinctConcat(LineDefs(0, [], false, d.root), TablesDefs(d.tables));
    if t < u { HeadsDiffer(d.tables, t, u); } else { HeadsDiffer(d.tables, u, t); }
  }

  lemma DistinctMembers(q: seq<Def>, x: Def, y: Def)
    requires Distinct(q) && x in q && y in q && x != y
    ensures !Conflict(x, y)
  {
    var i :| 0 <= i < |q| && q[i] == x;
    var j :| 0 <= j < |q| && q[j] == y;
    Symmetric(x, y);
    assert i < j || j < i;
  }

  /** A table that is there keeps its name for itself. */
  lemma NameTaken(d: Doc, key: string)
    requires Bare(key) && DistinctDoc(d) && TableIndex(d.tables, "[" + key + "]") < |d.tables|
    ensures !SomeReads(d.root, key) && !HasOther(d, key)
  {
    var t := TableIndex(d.tables, "[" + key + "]");
    HeadBare(key);
    HeadDef(d, t);
    if SomeReads(d.root, key) {
      var y := ReadAt(d, 0, key);
      DefsRegular(d, y);
      HeadConflicts(key, y);
      DistinctMembers(Defs(d), Opens(Head([key], false)), y);
    }
    forall u | 0 <= u < |d.tables| ensures !OtherHead(d.tables[u].0, key) {
      if u != t { OneHead(d, t, u); }
    }
  }

  lemma {:induction false} OldTableHarmless(d: Doc, key: string, entries: seq<(string, Item)>)
    requires DistinctDoc(d) && BareVal(key, Table(entries)) && EntryLines(entries).Ok?
    requires TableIndex(d.tables, "[" + key + "]") < |d.tables| && Unclashed(BodyOf(d, key), EntryLines(entries).value)
    ensures !Repeats(d, key, Table(entries)) <==> Harmless(d, key, Table(entries))
  {
    var t := TableIndex(d.tables, "[" + key + "]");
    var q := Under(t, "[" + key + "]", EntryLines(entries).value);
    NameTaken(d, key);
    UnderDefines(t, key, entries);
    DefinesDistinct(q, t + 1, [key], false, entries);
    EntriesApart(d, q, key, entries);
  }

  lemma NoSuchHead(d: Doc, key: string)
    requires TableIndex(d.tables, "[" + key + "]") == |d.tables|
    ensures HasAt(d, [key]) <==> HasOther(d, key)
  {
    forall t | 0 <= t < |d.tables| ensures HeadOf(d.tables[t].0).path == [key] <==> OtherHead(d.tables[t].0, key) {
      assert d.tables[t].0 != "[" + key + "]";
    }
  }

  lemma HeadOverEntries(q: seq<Def>, t: nat, key: string, entries: seq<(string, Item)>)
    requires Defines(q, t + 1, [key], false, entries)
    ensures Apart([Opens(Head([key], false))], q)
  {
    forall j | 0 <= j < |q| ensures !Conflict(Opens(Head([key], false)), q[j]) { HeadConflicts(key, q[j]); }
  }

  lemma {:induction false} NewTableHarmless(d: Doc, key: string, entries: seq<(string, Item)>)
    requires BareVal(key, Table(entries)) && EntryLines(entries).Ok?
    requires TableIndex(d.tables, "[" + key + "]") == |d.tables|
    ensures !Repeats(d, key, Table(entries)) <==> Harmless(d, key, Table(entries))
  {
    var t := |d.tables|;
    var x, q := [Opens(Head([key], false))], Under(t, "[" + key + "]", EntryLines(entries).value);
    HeadBare(key);
    NoSuchHead(d, key);
    HeadApart(d, key);
    UnderDefines(t, key, entries);
    DefinesDistinct(q, t + 1, [key], false, entries);
    EntriesApart(d, q, key, entries);
    HeadOverEntries(q, t, key, entries);
    DistinctConcat(x, q);
    ApartConcat(Defs(d), x, q);
    ApartConcat(Defs(d), x + q, []);
    assert x + q + [] == x + q;
    assert NewDefs(d, key, Table(entries)) == x + q;
  }

  /**
   What a bare item that passes the checks can still repeat, in a document that defines nothing
   twice, whatever its lines.
   */
  lemma OneHarmless(lines: Lines, key: string, val: Val)
    requires MergeOne(lines, key, val).Ok? && BareVal(key, val) && DistinctDoc(Parse(lines))
    ensures !Repeats(Parse(lines), key, val) <==> Harmless(Parse(lines), key, val)
  {
    var d := Parse(lines);
    match val
    case Scalar(item) =>
      CheckedRoot(lines, key);
      ScalarDef(key, item.text);
      RootApart(d, key);
    case Table(entries) =>
      MergedUnclashed(lines, key, EntryLines(entries).value);
      if TableIndex(d.tables, "[" + key + "]") < |d.tables| {
        OldTableHarmless(d, key, entries);
      } else {
        NewTableHarmless(d, key, entries);
      }
  }
}
