/** Which maps `merge_extra` refuses, and why. */
module MergeExtraRefused {
  import opened Wrappers
  import opened MergeExtraSpec
  import opened MergeExtra
  import opened MergeExtraBare

  ghost predicate SomeStarts(body: Lines, p: string) { exists i :: 0 <= i < |body| && StartsWith(body[i], p) }

  /** A line of any section starts so. */
  ghost predicate DocStarts(d: Doc, p: string) {
    SomeStarts(d.root, p) || exists t :: 0 <= t < |d.tables| && SomeStarts(d.tables[t].1, p)
  }

  lemma StartsSnoc(body: Lines, l: string, p: string)
    ensures SomeStarts(body + [l], p) <==> SomeStarts(body, p) || StartsWith(l, p)
  {
    var c := body + [l];
    assert forall i :: 0 <= i < |body| ==> c[i] == body[i];
    assert c[|body|] == l;
  }

  lemma AddedStarts(d: Doc, l: string, p: string)
    ensures DocStarts(AddLine(d, l), p) <==> DocStarts(d, p) || (!IsHeader(l) && StartsWith(l, p))
  {
    var d' := AddLine(d, l);
    if IsHeader(l) {
      assert forall t :: 0 <= t < |d.tables| ==> d'.tables[t] == d.tables[t];
      assert !SomeStarts(d'.tables[|d.tables|].1, p);
    } else if d.tables == [] {
      StartsSnoc(d.root, l, p);
    } else {
      var n := |d.tables| - 1;
      StartsSnoc(d.tables[n].1, l, p);
      assert forall t :: 0 <= t < n ==> d'.tables[t] == d.tables[t];
      assert d'.tables[n].1 == d.tables[n].1 + [l] && |d'.tables| == n + 1;
    }
  }

  ghost predicate Clash(lines: Lines, p: string) {
    exists i :: 0 <= i < |lines| && !IsHeader(lines[i]) && StartsWith(lines[i], p)
  }

  lemma {:induction false} LinesStart(lines: Lines, p: string)
    ensures Clash(lines, p) <==> DocStarts(Parse(lines), p)
  {
    if lines != [] {
      var n := |lines| - 1;
      LinesStart(lines[..n], p);
      AddedStarts(Parse(lines[..n]), lines[n], p);
      assert forall i :: 0 <= i < n ==> lines[..n][i] == lines[i];
    }
  }

  /** A scalar is refused exactly if some line of any section, though it would go before the
      first table, starts with its key and a blank, or if it is no scalar. */
  lemma ScalarRefused(lines: Lines, key: string, item: Item)
    ensures var r := MergeOne(lines, key, Scalar(item));
            && (r == Err(Collision) <==> DocStarts(Parse(lines), key + " "))
            && (r == Err(NotScalar) <==> !DocStarts(Parse(lines), key + " ") && !item.Value?)
            && (r.Ok? <==> !DocStarts(Parse(lines), key + " ") && item.Value?)
  {
    LinesStart(lines, key + " ");
    assert ClashesPlain(lines, key) <==> Clash(lines, key + " ");
  }

  ghost predicate AllValues(entries: seq<(string, Item)>) { forall i :: 0 <= i < |entries| ==> entries[i].1.Value? }

  /** The first entry that is no scalar, by what it is. */
  ghost predicate FirstOther(entries: seq<(string, Item)>, i: nat, e: MergeError) {
    && i < |entries| && AllValues(entries[..i]) && !entries[i].1.Value?
    && e == if entries[i].1.Nested? then TooDeep else NotScalar
  }

  lemma {:induction false} EntriesRefused(entries: seq<(string, Item)>)
    ensures EntryLines(entries).Ok? <==> AllValues(entries)
    ensures EntryLines(entries).Err? ==> exists i :: FirstOther(entries, i, EntryLines(entries).error)
  {
    if entries != [] {
      var n := |entries| - 1;
      EntriesRefused(entries[..n]);
      assert forall i :: 0 <= i < n ==> entries[..n][i] == entries[i];
      if EntryLines(entries[..n]).Err? {
        var e := EntryLines(entries).error;
        var i :| FirstOther(entries[..n], i, e);
        OtherStays(entries, i, e);
      } else if !entries[n].1.Value? {
        assert FirstOther(entries, n, EntryLines(entries).error);
      }
    }
  }

  lemma OtherStays(entries: seq<(string, Item)>, i: nat, e: MergeError)
    requires entries != [] && FirstOther(entries[..|entries| - 1], i, e)
    ensures FirstOther(entries, i, e)
  {
    assert entries[..|entries| - 1][..i] == entries[..i];
  }

  /** A line of the table starts with what stands before the first " = " of an entry, and a blank. */
  ghost predicate EntryClashes(body: Lines, es: Lines) {
    exists i :: 0 <= i < |es| && SomeStarts(body, KeyOf(es[i]) + " ")
  }

  lemma TableClashes(lines: Lines, key: string, es: Lines)
    ensures MergeTable(lines, "[" + key + "]", es) == Err(Collision) <==> EntryClashes(BodyOf(Parse(lines), key), es)
    ensures MergeTable(lines, "[" + key + "]", es).Err? ==> MergeTable(lines, "[" + key + "]", es) == Err(Collision)
  {
    var h, body := "[" + key + "]", BodyOf(Parse(lines), key);
    BracketsAreHeader(key);
    HeaderLineIsTable(lines, h);
    forall i | 0 <= i < |es| ensures Clashes(body, KeyOf(es[i])) <==> SomeStarts(body, KeyOf(es[i]) + " ") { }
    if h in lines {
      assert IndexOf(lines, h) < |lines|;
      BodyIs(lines, h);
    }
  }

  /** A table is refused exactly if an entry is no scalar, the first such one giving the reason,
      or if a line under the header it goes to starts with an entry's key and a blank. */
  lemma TableRefused(lines: Lines, key: string, entries: seq<(string, Item)>)
    ensures var r := MergeOne(lines, key, Table(entries));
            && (r.Err? && r.error != Collision <==> !AllValues(entries))
            && (r.Err? && r.error != Collision ==> exists i :: FirstOther(entries, i, r.error))
            && (AllValues(entries) ==>
                  EntryLines(entries).Ok? && (r.Err? <==> EntryClashes(BodyOf(Parse(lines), key), EntryLines(entries).value)))
  {
    EntriesRefused(entries);
    if AllValues(entries) { TableClashes(lines, key, EntryLines(entries).value); }
  }

  /** A map is refused for the first item that is refused, as the items before it left the lines. */
  lemma {:induction false} MapRefused(lines: Lines, extra: seq<(string, Val)>) returns (n: nat)
    requires Merge(lines, extra).Err?
    ensures n < |extra| && Merge(lines, extra[..n]).Ok?
    ensures var r := MergeOne(Merge(lines, extra[..n]).value, extra[n].0, extra[n].1); r == Err(Merge(lines, extra).error)
  {
    n := |extra| - 1;
    if Merge(lines, extra[..n]).Err? {
      var m := MapRefused(lines, extra[..n]);
      assert extra[..n][..m] == extra[..m];
      n := m;
    }
  }
}
