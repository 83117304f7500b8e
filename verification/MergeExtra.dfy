/** What merging one item means for the document. */
module MergeExtra {
  import opened MergeExtraSpec

  // ---- the edit of the document ----

  function TableIndex(tables: seq<(string, Lines)>, header: string): (t: nat)
    ensures t <= |tables| && (t < |tables| ==> tables[t].0 == header) && forall k :: 0 <= k < t ==> tables[k].0 != header
  {
    if tables == [] || tables[0].0 == header then 0 else 1 + TableIndex(tables[1..], header)
  }

  /** Entries go to the front of their table, or into a new last one after a blank line. */
  function InsertTable(d: Doc, header: string, entries: Lines): Doc {
    var t := TableIndex(d.tables, header);
    if t == |d.tables| then
      var x := Extend(d, [""]);
      Doc(x.root, x.tables + [(header, entries)])
    else Doc(d.root, d.tables[t := (header, entries + d.tables[t].1)])
  }

  /** A scalar goes last among the lines before the first table. */
  function InsertScalar(d: Doc, line: string): Doc { Doc(d.root + [line], d.tables) }

  lemma WrittenHeader(key: string, text: string)
    ensures IsHeader(Written(key, text)) <==> StartsWith(key, "[")
  {
    if key != [] {
      assert Written(key, text)[0] == key[0];
      assert Written(key, text)[..1] == [key[0]] && key[..1] == [key[0]];
    } else {
      assert Written(key, text)[..1] == " ";
    }
  }

  /** The lines before the first table are those before the first header. */
  lemma RootIs(lines: Lines)
    ensures Parse(lines).root == lines[..HeaderFrom(lines, 0)]
    ensures var n := HeaderFrom(lines, 0); Parse(lines) == Doc(lines[..n], Parse(lines[n..]).tables) && Parse(lines[n..]).root == []
  {
    var n := HeaderFrom(lines, 0);
    var x, y := lines[..n], lines[n..];
    assert lines == x + y;
    ParsePlain(x);
    ParseConcat(x, y);
    if y != [] {
      assert y == [y[0]] + y[1..];
      ParseConcat([y[0]], y[1..]);
      assert Parse([y[0]]) == AddLine(Parse([]), y[0]) by { assert [y[0]][..0] == []; }
    }
    assert x + [] == x;
  }

  lemma PlainInserted(x: Lines, line: string, y: Lines)
    requires NoHeader(x) && !IsHeader(line) && Parse(y).root == []
    ensures Parse(x + [line] + y) == Doc(x + [line], Parse(y).tables)
  {
    ParsePlain(x + [line]);
    ParseConcat(x + [line], y);
    assert x + [line] + [] == x + [line];
  }

  lemma BracketInserted(x: Lines, line: string, y: Lines)
    requires NoHeader(x) && IsHeader(line)
    ensures Parse(x + [line] + y).root == x
  {
    var out := x + [line] + y;
    RootIs(out);
    assert out[|x|] == line && forall k :: 0 <= k < |x| ==> out[k] == x[k];
    assert HeaderFrom(out, 0) == |x|;
  }

  /** Merging a scalar means inserting it before the first table, exactly when its key does not
      start with a bracket. */
  lemma ScalarMeaning(lines: Lines, key: string, text: string)
    requires MergeOne(lines, key, Scalar(Value(text))).Ok?
    ensures Parse(MergeOne(lines, key, Scalar(Value(text))).value) == InsertScalar(Parse(lines), Written(key, text))
            <==> !StartsWith(key, "[")
  {
    var n, line := HeaderFrom(lines, 0), Written(key, text);
    RootIs(lines);
    WrittenHeader(key, text);
    if IsHeader(line) {
      BracketInserted(lines[..n], line, lines[n..]);
    } else {
      PlainInserted(lines[..n], line, lines[n..]);
    }
  }

  /** The tables up to and including the first header `h`. */
  lemma SplitAt(lines: Lines, h: string)
    requires IsHeader(h) && IndexOf(lines, h) < |lines|
    ensures var at := IndexOf(lines, h); var p := Parse(lines[..at]);
            && Parse(lines[..at + 1]) == Doc(p.root, p.tables + [(h, [])])
            && forall k :: 0 <= k < |p.tables| ==> p.tables[k].0 != h
  {
    var at := IndexOf(lines, h);
    var p := Parse(lines[..at]);
    assert lines[..at + 1][..at] == lines[..at];
    forall k | 0 <= k < |p.tables| ensures p.tables[k].0 != h {
      HeadersAreLines(lines[..at], k);
    }
  }

  lemma IndexSplit(a: seq<(string, Lines)>, h: string, body: Lines, b: seq<(string, Lines)>)
    requires forall k :: 0 <= k < |a| ==> a[k].0 != h
    ensures TableIndex(a + [(h, body)] + b, h) == |a|
  {
    var q := a + [(h, body)] + b;
    assert q[|a|] == (h, body);
    assert forall k :: 0 <= k < |a| ==> q[k] == a[k];
  }

  lemma JoinAtTable(root: Lines, ts: seq<(string, Lines)>, h: string, body: Lines, e: Doc)
    ensures Join(Doc(root, ts + [(h, body)]), e) == Doc(root, ts + [(h, body + e.root)] + e.tables)
  {
    assert (ts + [(h, body)])[..|ts|] == ts;
  }

  lemma UpToTable(a: Lines, p: Doc, h: string, more: Lines)
    requires Parse(a) == Doc(p.root, p.tables + [(h, [])]) && NoHeader(more)
    ensures Parse(a + more) == Doc(p.root, p.tables + [(h, more)])
  {
    ParsePlain(more);
    ParseConcat(a, more);
    JoinAtTable(p.root, p.tables, h, [], Doc(more, []));
    assert [] + more == more;
    assert p.tables + [(h, more)] + [] == p.tables + [(h, more)];
  }

  /** A document around the first header `h`, with more lines under it. */
  lemma AroundTable(lines: Lines, h: string, more: Lines)
    requires IsHeader(h) && IndexOf(lines, h) < |lines| && NoHeader(more)
    ensures var at := IndexOf(lines, h); var p, e := Parse(lines[..at]), Parse(lines[at + 1..]);
            Parse(lines[..at + 1] + more + lines[at + 1..]) == Doc(p.root, p.tables + [(h, more + e.root)] + e.tables)
  {
    var at := IndexOf(lines, h);
    var p := Parse(lines[..at]);
    SplitAt(lines, h);
    UpToTable(lines[..at + 1], p, h, more);
    ParseConcat(lines[..at + 1] + more, lines[at + 1..]);
    JoinAtTable(p.root, p.tables, h, more, Parse(lines[at + 1..]));
  }

  lemma {:induction false} AroundTableNow(lines: Lines, h: string)
    requires IsHeader(h) && IndexOf(lines, h) < |lines|
    ensures var at := IndexOf(lines, h); var p, e := Parse(lines[..at]), Parse(lines[at + 1..]);
            Parse(lines) == Doc(p.root, p.tables + [(h, e.root)] + e.tables) && TableIndex(Parse(lines).tables, h) == |p.tables|
  {
    var at := IndexOf(lines, h);
    var p, e := Parse(lines[..at]), Parse(lines[at + 1..]);
    SplitAt(lines, h);
    assert lines == lines[..at + 1] + lines[at + 1..];
    ParseConcat(lines[..at + 1], lines[at + 1..]);
    JoinAtTable(p.root, p.tables, h, [], e);
    assert [] + e.root == e.root;
    IndexSplit(p.tables, h, e.root, e.tables);
  }

  /** What a table's section becomes. */
  lemma ExistingTable(lines: Lines, h: string, entries: Lines)
    requires IsHeader(h) && IndexOf(lines, h) < |lines| && NoHeader(entries)
    ensures var at := IndexOf(lines, h);
            Parse(lines[..at + 1] + entries + lines[at + 1..]) == InsertTable(Parse(lines), h, entries)
  {
    var at := IndexOf(lines, h);
    var p, e := Parse(lines[..at]), Parse(lines[at + 1..]);
    AroundTable(lines, h, entries);
    AroundTableNow(lines, h);
    ReplaceMiddle(p.tables, (h, e.root), e.tables, (h, entries + e.root));
  }

  lemma ReplaceMiddle(a: seq<(string, Lines)>, x: (string, Lines), b: seq<(string, Lines)>, y: (string, Lines))
    ensures (a + [x] + b)[|a| := y] == a + [y] + b
  {
  }

  lemma {:induction false} HeaderLineIsTable(lines: Lines, h: string)
    requires IsHeader(h)
    ensures TableIndex(Parse(lines).tables, h) < |Parse(lines).tables| <==> h in lines
  {
    if h in lines {
      assert IndexOf(lines, h) < |lines|;
      AroundTableNow(lines, h);
    } else {
      var t := TableIndex(Parse(lines).tables, h);
      if t < |Parse(lines).tables| { HeadersAreLines(lines, t); }
    }
  }

  lemma {:induction false} ParseTwo(lines: Lines, h: string)
    requires IsHeader(h)
    ensures var x := Extend(Parse(lines), [""]); Parse(lines + ["", h]) == Doc(x.root, x.tables + [(h, [])])
  {
    assert lines + ["", h] == lines + [""] + [h];
    assert (lines + [""])[..|lines|] == lines && (lines + [""] + [h])[..|lines| + 1] == lines + [""];
    assert !IsHeader("");
    assert Parse(lines + [""]) == Extend(Parse(lines), [""]);
  }

  lemma {:induction false} NewTable(lines: Lines, h: string, entries: Lines)
    requires IsHeader(h) && h !in lines && NoHeader(entries)
    ensures Parse(lines + ["", h] + entries) == InsertTable(Parse(lines), h, entries)
  {
    HeaderLineIsTable(lines, h);
    ParseTwo(lines, h);
    ParseConcat(lines + ["", h], entries);
    ParsePlain(entries);
    assert [] + entries == entries;
  }

  lemma BracketsAreHeader(key: string)
    ensures IsHeader("[" + key + "]")
  {
    assert ("[" + key + "]")[..1] == "[";
  }

  /** Merging a table means inserting its entries under its header, exactly when none of their
      lines starts with a bracket. */
  lemma {:induction false} TableMeaning(lines: Lines, key: string, entries: Lines)
    requires MergeTable(lines, "[" + key + "]", entries).Ok?
    ensures Parse(MergeTable(lines, "[" + key + "]", entries).value) == InsertTable(Parse(lines), "[" + key + "]", entries)
            <==> NoHeader(entries)
  {
    BracketsAreHeader(key);
    if NoHeader(entries) { TableKept(lines, "[" + key + "]", entries); } else { TableTorn(lines, "[" + key + "]", entries); }
  }

  lemma {:induction false} TableKept(lines: Lines, h: string, entries: Lines)
    requires IsHeader(h) && MergeTable(lines, h, entries).Ok? && NoHeader(entries)
    ensures Parse(MergeTable(lines, h, entries).value) == InsertTable(Parse(lines), h, entries)
  {
    if IndexOf(lines, h) < |lines| { ExistingTable(lines, h, entries); } else { NewTable(lines, h, entries); }
  }

  /** An entry that reads as a header makes a table too many. */
  lemma {:induction false} TableTorn(lines: Lines, h: string, entries: Lines)
    requires IsHeader(h) && MergeTable(lines, h, entries).Ok? && !NoHeader(entries)
    ensures |Parse(MergeTable(lines, h, entries).value).tables| > |InsertTable(Parse(lines), h, entries).tables|
  {
    var at := IndexOf(lines, h);
    CountNone(entries);
    HeaderLineIsTable(lines, h);
    if at < |lines| { ExistingCount(lines, at, entries); } else { NewCount(lines, h, entries); }
  }

  lemma ExistingCount(lines: Lines, at: nat, entries: Lines)
    requires at < |lines|
    ensures |Parse(lines[..at + 1] + entries + lines[at + 1..]).tables| == |Parse(lines).tables| + CountHeaders(entries)
  {
    ParseCounts(lines);
    ParseCounts(lines[..at + 1] + entries + lines[at + 1..]);
    assert lines == lines[..at + 1] + lines[at + 1..];
    CountConcat(lines[..at + 1], lines[at + 1..]);
    CountConcat(lines[..at + 1], entries);
    CountConcat(lines[..at + 1] + entries, lines[at + 1..]);
  }

  lemma NewCount(lines: Lines, h: string, entries: Lines)
    requires IsHeader(h)
    ensures |Parse(lines + ["", h] + entries).tables| == |Parse(lines).tables| + 1 + CountHeaders(entries)
  {
    ParseCounts(lines);
    ParseCounts(lines + ["", h] + entries);
    CountConcat(lines, ["", h]);
    CountConcat(lines + ["", h], entries);
    assert ["", h][..1] == [""] && [""][..0] == [];
    assert CountHeaders(["", h]) == 1;
  }
}
