/** Which merged maps define something twice. */
module MergeExtraKeys {
  import opened MergeExtraSpec
  import opened MergeExtra
  import opened MergeExtraTheorems
  import opened MergeExtraToml

  // ---- any keys ----

  /** What an item of the map adds to the definitions of a document. */
  function NewDefs(d: Doc, key: string, val: Val): seq<Def> {
    match val
    case Scalar(Value(t)) => LineDefs(0, [], false, [Written(key, t)])
    case Scalar(_) => []
    case Table(entries) =>
      match EntryLines(entries)
      case Err(_) => []
      case Ok(es) =>
        TableNews(d, "[" + key + "]", es)
  }

  lemma ScalarDefs(d: Doc, line: string)
    ensures Defs(InsertScalar(d, line)) == LineDefs(0, [], false, d.root) + LineDefs(0, [], false, [line]) + TablesDefs(d.tables)
  {
    LineDefsConcat(0, [], false, d.root, [line]);
  }

  /** What the entries of a table add. */
  function TableNews(d: Doc, h: string, es: Lines): seq<Def> {
    var t := TableIndex(d.tables, h);
    if t < |d.tables| then Under(t, h, es) else TableDefs(t, h, es)
  }

  /** Where they come among the definitions. */
  lemma TableDefsAt(d: Doc, h: string, es: Lines) returns (a: seq<Def>, b: seq<Def>)
    ensures Defs(d) == a + b && Defs(InsertTable(d, h, es)) == a + TableNews(d, h, es) + b
  {
    if TableIndex(d.tables, h) < |d.tables| {
      a, b := OldTableDefs(d, h, es);
    } else {
      NewTableDefs(d, h, es);
      a, b := Defs(d), [];
      assert a + b == a && a + TableNews(d, h, es) + b == a + TableNews(d, h, es);
    }
  }

  lemma OldTableDefs(d: Doc, h: string, es: Lines) returns (a: seq<Def>, b: seq<Def>)
    requires TableIndex(d.tables, h) < |d.tables|
    ensures Defs(d) == a + b && Defs(InsertTable(d, h, es)) == a + Under(TableIndex(d.tables, h), h, es) + b
  {
    var t, root := TableIndex(d.tables, h), LineDefs(0, [], false, d.root);
    var a0;
    a0, b := TablesReplaced(d.tables, t, es);
    a := root + a0;
    Grouped(root, a0, b);
    Grouped(root, a0 + Under(t, h, es), b);
    Grouped(root, a0, Under(t, h, es));
  }

  lemma NewTableDefs(d: Doc, h: string, es: Lines)
    requires TableIndex(d.tables, h) == |d.tables|
    ensures Defs(InsertTable(d, h, es)) == Defs(d) + TableDefs(|d.tables|, h, es)
  {
    var x := Extend(d, [""]);
    BlankSame(d);
    assert (x.tables + [(h, es)])[..|x.tables|] == x.tables && |x.tables| == |d.tables|;
    Grouped(LineDefs(0, [], false, x.root), TablesDefs(x.tables), TableDefs(|d.tables|, h, es));
  }

  /** One item keeps everything defined once exactly when nothing it adds is defined twice by it
      or defined already. */
  lemma OneDistinct(d: Doc, key: string, val: Val)
    ensures DistinctDoc(InsertVal(d, key, val)) <==>
            DistinctDoc(d) && Distinct(NewDefs(d, key, val)) && Apart(NewDefs(d, key, val), Defs(d))
  {
    match val
    case Scalar(item) =>
      if item.Value? {
        var line := Written(key, item.text);
        ScalarDefs(d, line);
        InsertedDistinct(LineDefs(0, [], false, d.root), LineDefs(0, [], false, [line]), TablesDefs(d.tables));
      }
    case Table(entries) =>
      if EntryLines(entries).Ok? {
        var a, b := TableDefsAt(d, "[" + key + "]", EntryLines(entries).value);
        InsertedDistinct(a, NewDefs(d, key, val), b);
      }
  }

  /** An item that defines something the document so far has, or something twice itself. */
  ghost predicate Repeats(d: Doc, key: string, val: Val) {
    !(Distinct(NewDefs(d, key, val)) && Apart(NewDefs(d, key, val), Defs(d)))
  }

  ghost predicate RepeatsAt(d: Doc, extra: seq<(string, Val)>, i: nat)
    requires i < |extra|
  {
    Repeats(InsertAll(d, extra[..i]), extra[i].0, extra[i].1)
  }

  ghost predicate NoneRepeats(d: Doc, extra: seq<(string, Val)>) {
    forall i :: 0 <= i < |extra| ==> !RepeatsAt(d, extra, i)
  }

  lemma RepeatsBefore(d: Doc, extra: seq<(string, Val)>, n: nat, i: nat)
    requires i < n <= |extra|
    ensures RepeatsAt(d, extra[..n], i) <==> RepeatsAt(d, extra, i)
  {
    assert extra[..n][..i] == extra[..i];
  }

  lemma NoneSnoc(d: Doc, extra: seq<(string, Val)>)
    requires extra != []
    ensures NoneRepeats(d, extra) <==> NoneRepeats(d, extra[..|extra| - 1]) && !RepeatsAt(d, extra, |extra| - 1)
  {
    var n := |extra| - 1;
    forall i | 0 <= i < n ensures RepeatsAt(d, extra[..n], i) <==> RepeatsAt(d, extra, i) { RepeatsBefore(d, extra, n, i); }
  }

  lemma {:induction false} AllDistinct(d: Doc, extra: seq<(string, Val)>)
    ensures DistinctDoc(InsertAll(d, extra)) <==> DistinctDoc(d) && NoneRepeats(d, extra)
  {
    if extra != [] {
      var n := |extra| - 1;
      AllDistinct(d, extra[..n]);
      OneDistinct(InsertAll(d, extra[..n]), extra[n].0, extra[n].1);
      NoneSnoc(d, extra);
    }
  }

  /**
   Over a whole map, whatever its keys but a leading bracket: the merged document defines
   nothing twice, as TOML reads it, exactly when the rendered one did not and no item repeats
   a definition of the document as the items before it left it.
   */
  lemma KeysDistinct(lines: Lines, extra: seq<(string, Val)>)
    requires Merge(lines, extra).Ok? && PlainKeys(extra)
    ensures DistinctDoc(Parse(Merge(lines, extra).value)) <==> DistinctDoc(Parse(lines)) && NoneRepeats(Parse(lines), extra)
  {
    MergeMeaning(lines, extra);
    AllDistinct(Parse(lines), extra);
  }
}
