/**
 Merging the free-form `extra` map into rendered TOML (docker/render_config.py,
 `merge_extra`): an edit of a list of lines that stands for an edit of a document of tables.
 */
module MergeExtraSpec {
  import opened Wrappers

  type Lines = seq<string>

  // ---- documents ----

  /** The lines before the first table, then each table header with the lines under it. */
  datatype Doc = Doc(root: Lines, tables: seq<(string, Lines)>)

  predicate StartsWith(l: string, p: string) { |p| <= |l| && l[..|p|] == p }

  predicate IsHeader(l: string) { StartsWith(l, "[") }

  /** More lines at the end of the last section. */
  function Extend(d: Doc, ls: Lines): Doc {
    if d.tables == [] then Doc(d.root + ls, [])
    else
      var n := |d.tables| - 1;
      Doc(d.root, d.tables[..n] + [(d.tables[n].0, d.tables[n].1 + ls)])
  }

  function AddLine(d: Doc, l: string): Doc {
    if IsHeader(l) then Doc(d.root, d.tables + [(l, [])]) else Extend(d, [l])
  }

  function Parse(lines: Lines): Doc {
    if lines == [] then Doc([], []) else AddLine(Parse(lines[..|lines| - 1]), lines[|lines| - 1])
  }

  /** Lines that continue the last section, then further tables. */
  function Join(d: Doc, e: Doc): Doc {
    var x := Extend(d, e.root);
    Doc(x.root, x.tables + e.tables)
  }

  lemma ExtendTwice(d: Doc, a: Lines, b: Lines)
    ensures Extend(Extend(d, a), b) == Extend(d, a + b)
  {
    if d.tables == [] {
      assert d.root + a + b == d.root + (a + b);
    } else {
      var n := |d.tables| - 1;
      assert d.tables[n].1 + a + b == d.tables[n].1 + (a + b);
      assert Extend(d, a).tables[..n] == d.tables[..n];
    }
  }

  lemma ExtendNothing(d: Doc)
    ensures Extend(d, []) == d
  {
    if d.tables == [] {
      assert d.root + [] == d.root;
    } else {
      var n := |d.tables| - 1;
      assert d.tables[n].1 + [] == d.tables[n].1;
      assert d.tables[..n] + [d.tables[n]] == d.tables;
    }
  }

  lemma JoinAdd(d: Doc, e: Doc, l: string)
    ensures Join(d, AddLine(e, l)) == AddLine(Join(d, e), l)
  {
    var x := Extend(d, e.root);
    if IsHeader(l) {
      assert x.tables + (e.tables + [(l, [])]) == x.tables + e.tables + [(l, [])];
    } else if e.tables == [] {
      ExtendTwice(d, e.root, [l]);
      assert Join(d, e) == x by { assert x.tables + [] == x.tables; }
      var y := Extend(d, e.root + [l]);
      assert y.tables + [] == y.tables;
    } else {
      var n, m := |e.tables| - 1, |x.tables|;
      var t := (e.tables[n].0, e.tables[n].1 + [l]);
      assert x.tables + (e.tables[..n] + [t]) == (x.tables + e.tables)[..m + n] + [t];
    }
  }

  lemma JoinNothing(d: Doc)
    ensures Join(d, Doc([], [])) == d
  {
    ExtendNothing(d);
    assert d.tables + [] == d.tables;
  }

  lemma ParseSnoc(a: Lines, l: string)
    ensures Parse(a + [l]) == AddLine(Parse(a), l)
  {
    assert (a + [l])[..|a|] == a;
  }

  lemma {:induction false} ParseConcat(a: Lines, b: Lines)
    ensures Parse(a + b) == Join(Parse(a), Parse(b))
  {
    if b == [] {
      assert a + b == a;
      JoinNothing(Parse(a));
    } else {
      var init, l := b[..|b| - 1], b[|b| - 1];
      ParseConcat(a, init);
      assert a + b == (a + init) + [l];
      ParseSnoc(a + init, l);
      JoinAdd(Parse(a), Parse(init), l);
    }
  }

  ghost predicate NoHeader(lines: Lines) { forall i :: 0 <= i < |lines| ==> !IsHeader(lines[i]) }

  lemma {:induction false} ParsePlain(lines: Lines)
    requires NoHeader(lines)
    ensures Parse(lines) == Doc(lines, [])
  {
    if lines != [] {
      var init, l := lines[..|lines| - 1], lines[|lines| - 1];
      ParsePlain(init);
      assert lines == init + [l];
      ParseSnoc(init, l);
    }
  }

  /** There are as many tables as header lines. */
  function CountHeaders(lines: Lines): nat {
    if lines == [] then 0 else CountHeaders(lines[..|lines| - 1]) + if IsHeader(lines[|lines| - 1]) then 1 else 0
  }

  lemma {:induction false} ParseCounts(lines: Lines)
    ensures |Parse(lines).tables| == CountHeaders(lines)
  {
    if lines != [] { ParseCounts(lines[..|lines| - 1]); }
  }

  lemma {:induction false} CountConcat(a: Lines, b: Lines)
    ensures CountHeaders(a + b) == CountHeaders(a) + CountHeaders(b)
  {
    if b == [] {
      assert a + b == a;
    } else {
      CountConcat(a, b[..|b| - 1]);
      assert (a + b)[..|a + b| - 1] == a + b[..|b| - 1];
    }
  }

  lemma {:induction false} CountNone(lines: Lines)
    ensures CountHeaders(lines) == 0 <==> NoHeader(lines)
  {
    if lines != [] {
      CountNone(lines[..|lines| - 1]);
      assert forall i :: 0 <= i < |lines| - 1 ==> lines[i] == lines[..|lines| - 1][i];
    }
  }

  lemma AddLineHeaders(d: Doc, l: string, t: nat)
    requires t < |AddLine(d, l).tables|
    ensures if t < |d.tables| then AddLine(d, l).tables[t].0 == d.tables[t].0
            else IsHeader(l) && AddLine(d, l).tables[t].0 == l
  {
  }

  lemma {:induction false} HeadersAreLines(lines: Lines, t: nat)
    requires t < |Parse(lines).tables|
    ensures Parse(lines).tables[t].0 in lines && IsHeader(Parse(lines).tables[t].0)
  {
    var init, l := lines[..|lines| - 1], lines[|lines| - 1];
    AddLineHeaders(Parse(init), l, t);
    if t < |Parse(init).tables| { HeadersAreLines(init, t); }
  }

  // ---- the edit ----

  datatype Item = Value(text: string) | Nested | Unsupported

  datatype Val = Scalar(item: Item) | Table(entries: seq<(string, Item)>)

  datatype MergeError = TooDeep | NotScalar | Collision

  function Written(key: string, text: string): string { key + " = " + text }

  /** Place of the first " = ", or the length. */
  function EqualsAt(l: string): (i: nat)
    ensures i <= |l|
  {
    if l == [] then 0 else if StartsWith(l, " = ") then 0 else 1 + EqualsAt(l[1..])
  }

  /** `split(" = ")[0]`. */
  function KeyOf(l: string): string { l[..EqualsAt(l)] }

  function EntryLines(entries: seq<(string, Item)>): Result<Lines, MergeError> {
    if entries == [] then Ok([]) else
    match EntryLines(entries[..|entries| - 1])
    case Err(e) => Err(e)
    case Ok(lines) =>
      var (k, item) := entries[|entries| - 1];
      match item
      case Nested => Err(TooDeep)
      case Unsupported => Err(NotScalar)
      case Value(t) => Ok(lines + [Written(k, t)])
  }

  /** Place of the first header from `i` on, or the length. */
  function HeaderFrom(lines: Lines, i: nat): (j: nat)
    requires i <= |lines|
    ensures i <= j <= |lines| && (j < |lines| ==> IsHeader(lines[j])) && forall k :: i <= k < j ==> !IsHeader(lines[k])
    decreases |lines| - i
  {
    if i == |lines| || IsHeader(lines[i]) then i else HeaderFrom(lines, i + 1)
  }

  function IndexOf(lines: Lines, l: string): (i: nat)
    ensures i <= |lines| && (i < |lines| ==> lines[i] == l) && forall k :: 0 <= k < i ==> lines[k] != l
  {
    if lines == [] || lines[0] == l then 0 else 1 + IndexOf(lines[1..], l)
  }

  predicate Clashes(lines: Lines, key: string) { exists i :: 0 <= i < |lines| && StartsWith(lines[i], key + " ") }

  predicate ClashesPlain(lines: Lines, key: string) {
    exists i :: 0 <= i < |lines| && !IsHeader(lines[i]) && StartsWith(lines[i], key + " ")
  }

  function MergeTable(lines: Lines, header: string, entries: Lines): Result<Lines, MergeError> {
    var at := IndexOf(lines, header);
    if at == |lines| then Ok(lines + ["", header] + entries) else
    var end := HeaderFrom(lines, at + 1);
    if exists i :: 0 <= i < |entries| && Clashes(lines[at + 1..end], KeyOf(entries[i])) then Err(Collision)
    else Ok(lines[..at + 1] + entries + lines[at + 1..])
  }

  function MergeOne(lines: Lines, key: string, val: Val): Result<Lines, MergeError> {
    match val
    case Table(entries) =>
      (match EntryLines(entries) case Err(e) => Err(e) case Ok(es) => MergeTable(lines, "[" + key + "]", es))
    case Scalar(item) =>
      if ClashesPlain(lines, key) then Err(Collision) else
      match item
      case Value(t) =>
        var first := HeaderFrom(lines, 0);
        Ok(lines[..first] + [Written(key, t)] + lines[first..])
      case _ => Err(NotScalar)
  }

  function Merge(lines: Lines, extra: seq<(string, Val)>): Result<Lines, MergeError> {
    if extra == [] then Ok(lines) else
    match Merge(lines, extra[..|extra| - 1])
    case Err(e) => Err(e)
    case Ok(out) => MergeOne(out, extra[|extra| - 1].0, extra[|extra| - 1].1)
  }
}
