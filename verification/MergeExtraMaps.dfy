/** Which whole maps of bare keys define something twice, whatever the rendered lines. */
module MergeExtraMaps {
  import opened MergeExtraSpec
  import opened MergeExtra
  import opened MergeExtraTheorems
  import opened MergeExtraToml
  import opened MergeExtraKeys
  import opened MergeExtraBare

  // ---- what an item changes ----

  /** A line that is not there for a reader, or only where the check looks. */
  ghost predicate Open(l: string) { forall k :: !Unseen(l, k) }

  ghost predicate AllOpen(ls: Lines) { forall i :: 0 <= i < |ls| ==> Open(ls[i]) }

  lemma OpenWritten(k: string, text: string)
    requires Bare(k)
    ensures Open(Written(k, text))
  {
    KeyBare(k, text);
  }

  lemma OpenBlank()
    ensures AllOpen([""]) && forall k :: !Reads("", k)
  {
    assert Key("").None?;
  }

  lemma OpenEntries(entries: seq<(string, Item)>)
    requires EntryLines(entries).Ok? && BareEntries(entries)
    ensures AllOpen(EntryLines(entries).value)
  {
    var es := EntryLines(entries).value;
    if entries != [] { EntryAt(entries, 0); }
    forall i | 0 <= i < |es| ensures Open(es[i]) {
      EntryAt(entries, i);
      OpenWritten(entries[i].0, entries[i].1.text);
    }
  }

  /** Open lines hide nothing from the check, wherever they go. */
  lemma UnseenConcat(a: Lines, b: Lines, k: string)
    ensures SomeUnseen(a + b, k) <==> SomeUnseen(a, k) || SomeUnseen(b, k)
    ensures SomeReads(a + b, k) <==> SomeReads(a, k) || SomeReads(b, k)
    ensures AllOpen(a) ==> !SomeUnseen(a, k)
    ensures AllOpen(b) ==> !SomeUnseen(b, k)
  {
    var c := a + b;
    assert forall i :: 0 <= i < |a| ==> c[i] == a[i];
    assert forall i :: 0 <= i < |b| ==> c[|a| + i] == b[i];
  }

  ghost predicate Writable(val: Val) {
    match val
    case Scalar(item) => item.Value?
    case Table(entries) => EntryLines(entries).Ok?
  }

  ghost predicate Adds(key: string, val: Val, k: string, table: bool) { key == k && val.Table? == table }

  /** Before the first table an item adds its own name, if it is a scalar, and in the open. */
  lemma RootAfterOne(d: Doc, key: string, val: Val, k: string)
    requires BareVal(key, val) && Writable(val)
    ensures var d' := InsertVal(d, key, val);
            && (SomeReads(d'.root, k) <==> SomeReads(d.root, k) || Adds(key, val, k, false))
            && (SomeUnseen(d'.root, k) <==> SomeUnseen(d.root, k))
  {
    if val.Scalar? {
      var l := Written(key, val.item.text);
      KeyBare(key, val.item.text);
      OpenWritten(key, val.item.text);
      UnseenConcat(d.root, [l], k);
      assert [l][0] == l && (Reads(l, k) <==> key == k);
    } else {
      OpenBlank();
      UnseenConcat(d.root, [""], k);
    }
  }

  ghost predicate SameHeads(d: Doc, d': Doc) {
    |d'.tables| >= |d.tables| && forall t :: 0 <= t < |d.tables| ==> d'.tables[t].0 == d.tables[t].0
  }

  lemma HeadsSame(d: Doc, d': Doc, k: string, e: string)
    requires SameHeads(d, d') && |d'.tables| == |d.tables|
    ensures HasFrom(d', [k]) <==> HasFrom(d, [k])
    ensures HasFrom(d', [k, e]) <==> HasFrom(d, [k, e])
    ensures HasOther(d', k) <==> HasOther(d, k)
  {
  }

  lemma BareHead(key: string, k: string, e: string)
    requires Bare(key)
    ensures var h := "[" + key + "]";
            ([k] <= HeadOf(h).path <==> key == k) && !([k, e] <= HeadOf(h).path) && !OtherHead(h, k)
  {
    HeadBare(key);
    Prefixes([key], k);
    assert [key][0] == key && [k][0] == k;
  }

  /** One header more. */
  lemma HeadsMore(d: Doc, d': Doc, h: string, key: string, k: string, e: string)
    requires SameHeads(d, d') && |d'.tables| == |d.tables| + 1 && d'.tables[|d.tables|].0 == h
    requires ([k] <= HeadOf(h).path <==> key == k) && !([k, e] <= HeadOf(h).path) && !OtherHead(h, k)
    ensures HasFrom(d', [k]) <==> HasFrom(d, [k]) || key == k
    ensures HasFrom(d', [k, e]) <==> HasFrom(d, [k, e])
    ensures HasOther(d', k) <==> HasOther(d, k)
  {
  }

  lemma HeadAfterTable(d: Doc, key: string, es: Lines, k: string, e: string)
    requires Bare(key)
    ensures var d' := InsertTable(d, "[" + key + "]", es);
            && (HasFrom(d', [k]) <==> HasFrom(d, [k]) || key == k)
            && (HasFrom(d', [k, e]) <==> HasFrom(d, [k, e]))
            && (HasOther(d', k) <==> HasOther(d, k))
  {
    var h := "[" + key + "]";
    var d', t := InsertTable(d, h, es), TableIndex(d.tables, h);
    BareHead(key, k, e);
    if t < |d.tables| {
      HeadsSame(d, d', k, e);
      assert key == k ==> [k] <= HeadOf(d.tables[t].0).path;
    } else {
      HeadsMore(d, d', h, key, k, e);
    }
  }

  /** An item adds a header of its own name, if it is a table. */
  lemma HeadAfterOne(d: Doc, key: string, val: Val, k: string, e: string)
    requires BareVal(key, val) && Writable(val)
    ensures var d' := InsertVal(d, key, val);
            && (HasFrom(d', [k]) <==> HasFrom(d, [k]) || Adds(key, val, k, true))
            && (HasFrom(d', [k, e]) <==> HasFrom(d, [k, e]))
            && (HasOther(d', k) <==> HasOther(d, k))
  {
    match val
    case Scalar(_) => HeadsSame(d, InsertVal(d, key, val), k, e);
    case Table(entries) => HeadAfterTable(d, key, EntryLines(entries).value, k, e);
  }

  /** In a body that lines were added to, at either end and in the open, nothing is unseen that
      was not before. */
  lemma BodyAfterTable(d: Doc, key: string, es: Lines, k: string, e: string)
    requires AllOpen(es)
    ensures SomeUnseen(BodyOf(InsertTable(d, "[" + key + "]", es), k), e) <==> SomeUnseen(BodyOf(d, k), e)
  {
    var h, g := "[" + key + "]", "[" + k + "]";
    var d', t, u := InsertTable(d, h, es), TableIndex(d.tables, h), TableIndex(d.tables, g);
    if t < |d.tables| {
      IndexSame(d.tables, d'.tables, g);
      if u == t { UnseenConcat(es, d.tables[t].1, e); }
    } else {
      NewBody(d, key, es, k, e);
    }
  }

  lemma {:induction false} IndexSame(a: seq<(string, Lines)>, b: seq<(string, Lines)>, g: string)
    requires |a| <= |b| && forall t :: 0 <= t < |a| ==> a[t].0 == b[t].0
    ensures TableIndex(a, g) < |a| ==> TableIndex(b, g) == TableIndex(a, g)
    ensures TableIndex(a, g) == |a| ==> TableIndex(b, g) >= |a|
  {
  }

  /** A new table comes after a blank line. */
  lemma NewBody(d: Doc, key: string, es: Lines, k: string, e: string)
    requires AllOpen(es) && TableIndex(d.tables, "[" + key + "]") == |d.tables|
    ensures SomeUnseen(BodyOf(InsertTable(d, "[" + key + "]", es), k), e) <==> SomeUnseen(BodyOf(d, k), e)
  {
    var g, n := "[" + k + "]", |d.tables|;
    var d', u := InsertTable(d, "[" + key + "]", es), TableIndex(d.tables, "[" + k + "]");
    IndexSame(d.tables, d'.tables, g);
    if u < n {
      OpenBlank();
      UnseenConcat(d.tables[u].1, [""], e);
      assert d'.tables[u].1 == if u == n - 1 then d.tables[u].1 + [""] else d.tables[u].1;
    } else {
      UnseenConcat(es, [], e);
      assert d'.tables[n].1 == es && |d'.tables| == n + 1;
    }
  }

  lemma BodyAfterOne(d: Doc, key: string, val: Val, k: string, e: string)
    requires BareVal(key, val) && Writable(val)
    ensures SomeUnseen(BodyOf(InsertVal(d, key, val), k), e) <==> SomeUnseen(BodyOf(d, k), e)
  {
    if val.Table? {
      OpenEntries(val.entries);
      BodyAfterTable(d, key, EntryLines(val.entries).value, k, e);
    }
  }

  // ---- what a map changes ----

  ghost predicate AllBare(extra: seq<(string, Val)>) {
    forall i :: 0 <= i < |extra| ==> BareVal(extra[i].0, extra[i].1)
  }

  ghost predicate SomeAdds(extra: seq<(string, Val)>, k: string, table: bool) {
    exists i :: 0 <= i < |extra| && Adds(extra[i].0, extra[i].1, k, table)
  }

  lemma SomeSnoc(extra: seq<(string, Val)>, k: string, table: bool)
    requires extra != []
    ensures var n := |extra| - 1;
            SomeAdds(extra, k, table) <==> SomeAdds(extra[..n], k, table) || Adds(extra[n].0, extra[n].1, k, table)
  {
    var n := |extra| - 1;
    assert forall i :: 0 <= i < n ==> extra[..n][i] == extra[i];
  }

  /** What has changed for the name `k`, and for `e` under it. */
  ghost predicate Changed(d: Doc, d': Doc, extra: seq<(string, Val)>, k: string, e: string) {
    && (SomeReads(d'.root, k) <==> SomeReads(d.root, k) || SomeAdds(extra, k, false))
    && (SomeUnseen(d'.root, k) <==> SomeUnseen(d.root, k))
    && (HasFrom(d', [k]) <==> HasFrom(d, [k]) || SomeAdds(extra, k, true))
    && (HasFrom(d', [k, e]) <==> HasFrom(d, [k, e]))
    && (HasOther(d', k) <==> HasOther(d, k))
    && (SomeUnseen(BodyOf(d', k), e) <==> SomeUnseen(BodyOf(d, k), e))
  }

  ghost predicate AllWritable(extra: seq<(string, Val)>) { forall i :: 0 <= i < |extra| ==> Writable(extra[i].1) }

  /** The map adds its names and nothing that the check would not see. */
  lemma {:induction false} NamesAfter(d: Doc, extra: seq<(string, Val)>, k: string, e: string)
    requires AllBare(extra) && AllWritable(extra)
    ensures Changed(d, InsertAll(d, extra), extra, k, e)
  {
    if extra != [] {
      var n := |extra| - 1;
      var d0, key, val := InsertAll(d, extra[..n]), extra[n].0, extra[n].1;
      NamesAfter(d, extra[..n], k, e);
      SomeSnoc(extra, k, false);
      SomeSnoc(extra, k, true);
      RootAfterOne(d0, key, val, k);
      HeadAfterOne(d0, key, val, k, e);
      BodyAfterOne(d0, key, val, k, e);
    }
  }

  // ---- the theorem ----

  /** No item is harmful to the rendered document, and no scalar has the name of a table. */
  ghost predicate HarmlessMap(d: Doc, extra: seq<(string, Val)>) {
    && (forall i :: 0 <= i < |extra| ==> Harmless(d, extra[i].0, extra[i].1))
    && (forall i, j :: 0 <= i < |extra| && 0 <= j < |extra| && extra[i].1.Scalar? && extra[j].1.Table? ==> extra[i].0 != extra[j].0)
  }

  /** The name is not used for the other kind of thing before. */
  ghost predicate Unshared(init: seq<(string, Val)>, key: string, val: Val) { !SomeAdds(init, key, val.Scalar?) }

  lemma HarmlessSnoc(d: Doc, extra: seq<(string, Val)>)
    requires extra != []
    ensures var n := |extra| - 1; var (key, val) := extra[n];
            HarmlessMap(d, extra) <==> HarmlessMap(d, extra[..n]) && Harmless(d, key, val) && Unshared(extra[..n], key, val)
  {
    var n := |extra| - 1;
    var init := extra[..n];
    var (key, val) := extra[n];
    assert forall i :: 0 <= i < n ==> init[i] == extra[i];
    if HarmlessMap(d, extra) {
      forall i | 0 <= i < n ensures !Adds(init[i].0, init[i].1, key, val.Scalar?) { assert init[i] == extra[i]; }
    }
    if HarmlessMap(d, init) && Harmless(d, key, val) && Unshared(init, key, val) {
      forall i, j | 0 <= i < |extra| && 0 <= j < |extra| && extra[i].1.Scalar? && extra[j].1.Table? ensures extra[i].0 != extra[j].0 {
        if i == n { assert !Adds(init[j].0, init[j].1, key, true); }
        if j == n { assert !Adds(init[i].0, init[i].1, key, false); }
      }
    }
  }

  lemma HarmlessAfter(d: Doc, init: seq<(string, Val)>, key: string, val: Val)
    requires AllBare(init) && AllWritable(init)
    ensures Harmless(InsertAll(d, init), key, val) <==> Harmless(d, key, val) && Unshared(init, key, val)
  {
    var d' := InsertAll(d, init);
    NamesAfter(d, init, key, "");
    if val.Table? {
      forall i | 0 <= i < |val.entries| ensures HarmlessEntry(d', key, val.entries[i].0) <==> HarmlessEntry(d, key, val.entries[i].0) {
        NamesAfter(d, init, key, val.entries[i].0);
      }
    }
  }

  lemma {:induction false} MergedWritable(lines: Lines, extra: seq<(string, Val)>)
    requires Merge(lines, extra).Ok?
    ensures AllWritable(extra)
  {
    if extra != [] {
      var n := |extra| - 1;
      MergedWritable(lines, extra[..n]);
      assert forall i :: 0 <= i < n ==> extra[..n][i] == extra[i];
    }
  }

  lemma BareIsPlain(k: string)
    requires Bare(k)
    ensures !StartsWith(k, "[")
  {
    assert k[..1] == [k[0]];
  }

  lemma BarePlainKeys(extra: seq<(string, Val)>)
    requires AllBare(extra)
    ensures PlainKeys(extra)
  {
    forall i | 0 <= i < |extra| ensures PlainVal(extra[i].0, extra[i].1) {
      assert BareVal(extra[i].0, extra[i].1);
      BareIsPlain(extra[i].0);
      if extra[i].1.Table? {
        var es := extra[i].1.entries;
        forall j | 0 <= j < |es| ensures !StartsWith(es[j].0, "[") { BareIsPlain(es[j].0); }
      }
    }
  }

  /** The last item, given what the others did. */
  lemma LastItem(lines: Lines, extra: seq<(string, Val)>)
    requires extra != [] && Merge(lines, extra).Ok? && AllBare(extra)
    requires DistinctDoc(InsertAll(Parse(lines), extra[..|extra| - 1]))
    ensures var n := |extra| - 1; var (key, val) := extra[n];
            DistinctDoc(InsertAll(Parse(lines), extra)) <==> Harmless(Parse(lines), key, val) && Unshared(extra[..n], key, val)
  {
    var n, d0 := |extra| - 1, Parse(lines);
    var init := extra[..n];
    var (key, val) := extra[n];
    assert AllBare(init) && BareVal(key, val);
    BarePlainKeys(init);
    MergeMeaning(lines, init);
    MergedWritable(lines, init);
    OneHarmless(Merge(lines, init).value, key, val);
    OneDistinct(InsertAll(d0, init), key, val);
    HarmlessAfter(d0, init, key, val);
  }

  lemma {:induction false} BareDistinct(lines: Lines, extra: seq<(string, Val)>)
    requires Merge(lines, extra).Ok? && AllBare(extra)
    ensures DistinctDoc(InsertAll(Parse(lines), extra)) <==> DistinctDoc(Parse(lines)) && HarmlessMap(Parse(lines), extra)
  {
    if extra != [] {
      var n, d0 := |extra| - 1, Parse(lines);
      assert AllBare(extra[..n]);
      BareDistinct(lines, extra[..n]);
      HarmlessSnoc(d0, extra);
      if DistinctDoc(InsertAll(d0, extra[..n])) {
        LastItem(lines, extra);
      } else {
        OneDistinct(InsertAll(d0, extra[..n]), extra[n].0, extra[n].1);
      }
    }
  }

  /**
   What a caller can check beforehand. For any rendered lines and any map of bare keys that
   merges, the result defines nothing twice exactly when the lines did not and, looking at the
   lines and the map alone: the keys within each table of the map differ; no scalar of the map
   has the first name of a table, rendered or in the map, and no table of the map the first name
   of a scalar, or the name of a header spelled otherwise or of an array; no key of the map is
   spelled another way in its rendered section; and no key of a table of the map is a rendered
   table below it.
   */
  lemma BareKeysDistinct(lines: Lines, extra: seq<(string, Val)>)
    requires Merge(lines, extra).Ok? && AllBare(extra)
    ensures DistinctDoc(Parse(Merge(lines, extra).value)) <==> DistinctDoc(Parse(lines)) && HarmlessMap(Parse(lines), extra)
  {
    BarePlainKeys(extra);
    MergeMeaning(lines, extra);
    BareDistinct(lines, extra);
  }

  // ---- section by section ----

  ghost predicate DistinctBody(body: Lines) { Distinct(LineDefs(0, [], false, body)) }

  /** No section has a key twice; names of sections are not looked at. */
  ghost predicate DistinctSections(d: Doc) {
    DistinctBody(d.root) && forall t :: 0 <= t < |d.tables| ==> DistinctBody(d.tables[t].1)
  }

  ghost predicate UnseenNone(body: Lines, entries: seq<(string, Item)>) {
    forall i :: 0 <= i < |entries| ==> !SomeUnseen(body, entries[i].0)
  }

  /** The keys of a table differ, and no key is spelled another way in its section. */
  ghost predicate HarmlessInside(d: Doc, key: string, val: Val) {
    match val
    case Scalar(_) => !SomeUnseen(d.root, key)
    case Table(entries) => DistinctNames(entries) && UnseenNone(BodyOf(d, key), entries)
  }

  ghost predicate HarmlessSections(d: Doc, extra: seq<(string, Val)>) {
    forall i :: 0 <= i < |extra| ==> HarmlessInside(d, extra[i].0, extra[i].1)
  }

  lemma KeyApart(e: string, body: Lines)
    ensures Apart([Line(0, [], false, [e])], LineDefs(0, [], false, body)) <==> !SomeReads(body, e)
  {
    var d := Doc(body, []);
    RootApart(d, e);
    assert Defs(d) == LineDefs(0, [], false, body);
  }

  lemma ReadsApart(q: seq<Def>, entries: seq<(string, Item)>, body: Lines)
    requires Defines(q, 0, [], false, entries)
    ensures Apart(q, LineDefs(0, [], false, body)) <==> forall i :: 0 <= i < |entries| ==> !SomeReads(body, entries[i].0)
  {
    ApartEach(q, LineDefs(0, [], false, body));
    forall i | 0 <= i < |q| ensures Apart([q[i]], LineDefs(0, [], false, body)) <==> !SomeReads(body, entries[i].0) {
      KeyApart(entries[i].0, body);
    }
  }

  lemma EntriesBody(entries: seq<(string, Item)>, body: Lines)
    requires EntryLines(entries).Ok? && BareEntries(entries) && Unclashed(body, EntryLines(entries).value)
    ensures DistinctBody(EntryLines(entries).value + body) <==> DistinctNames(entries) && DistinctBody(body) && UnseenNone(body, entries)
  {
    var es := EntryLines(entries).value;
    var q := LineDefs(0, [], false, es);
    EntryDefs(0, [], false, entries);
    LineDefsConcat(0, [], false, es, body);
    DefinesDistinct(q, 0, [], false, entries);
    ReadsApart(q, entries, body);
    DistinctConcat(q, LineDefs(0, [], false, body));
    forall i | 0 <= i < |entries| ensures SomeReads(body, entries[i].0) <==> SomeUnseen(body, entries[i].0) {
      CheckedEntry(body, entries, i);
    }
  }

  lemma BlankBody(body: Lines)
    ensures DistinctBody(body + [""]) <==> DistinctBody(body)
  {
    LineDefsConcat(0, [], false, body, [""]);
    BlankDefines(0, [], false);
    assert LineDefs(0, [], false, body) + [] == LineDefs(0, [], false, body);
  }

  lemma BlankSections(d: Doc)
    ensures DistinctSections(Extend(d, [""])) <==> DistinctSections(d)
  {
    var x := Extend(d, [""]);
    if d.tables == [] {
      BlankBody(d.root);
    } else {
      var n := |d.tables| - 1;
      BlankBody(d.tables[n].1);
      forall t | 0 <= t < |d.tables| ensures DistinctBody(x.tables[t].1) <==> DistinctBody(d.tables[t].1) {
        if t < n { assert x.tables[t] == d.tables[t]; }
      }
    }
  }

  lemma ScalarSections(d: Doc, key: string, text: string)
    requires Bare(key)
    ensures DistinctSections(InsertScalar(d, Written(key, text))) <==> DistinctSections(d) && !SomeReads(d.root, key)
  {
    var root, q := LineDefs(0, [], false, d.root), [Line(0, [], false, [key])];
    ScalarDef(key, text);
    LineDefsConcat(0, [], false, d.root, [Written(key, text)]);
    KeyApart(key, d.root);
    ApartConcat(root, q, []);
    DistinctConcat(root, q);
  }

  lemma TableSections(d: Doc, key: string, entries: seq<(string, Item)>)
    requires BareEntries(entries) && EntryLines(entries).Ok? && Unclashed(BodyOf(d, key), EntryLines(entries).value)
    ensures DistinctSections(InsertTable(d, "[" + key + "]", EntryLines(entries).value)) <==>
            DistinctSections(d) && HarmlessInside(d, key, Table(entries))
  {
    var h, es := "[" + key + "]", EntryLines(entries).value;
    EntriesBody(entries, BodyOf(d, key));
    if TableIndex(d.tables, h) < |d.tables| {
      OldSections(d, h, es, HarmlessInside(d, key, Table(entries)));
    } else {
      assert es + [] == es && DistinctBody([]);
      NewSections(d, h, es);
    }
  }

  lemma OldSections(d: Doc, h: string, es: Lines, ok: bool)
    requires var t := TableIndex(d.tables, h); t < |d.tables| && (DistinctBody(es + d.tables[t].1) <==> ok && DistinctBody(d.tables[t].1))
    ensures DistinctSections(InsertTable(d, h, es)) <==> DistinctSections(d) && ok
  {
    var t, d' := TableIndex(d.tables, h), InsertTable(d, h, es);
    assert d'.tables[t].1 == es + d.tables[t].1;
    assert forall u :: 0 <= u < |d.tables| && u != t ==> d'.tables[u] == d.tables[u];
  }

  lemma NewSections(d: Doc, h: string, es: Lines)
    requires TableIndex(d.tables, h) == |d.tables|
    ensures DistinctSections(InsertTable(d, h, es)) <==> DistinctSections(d) && DistinctBody(es)
  {
    var x, d' := Extend(d, [""]), InsertTable(d, h, es);
    BlankSections(d);
    assert d'.tables[|x.tables|].1 == es && forall u :: 0 <= u < |x.tables| ==> d'.tables[u] == x.tables[u];
  }

  lemma OneSections(lines: Lines, key: string, val: Val)
    requires MergeOne(lines, key, val).Ok? && BareVal(key, val)
    ensures DistinctSections(InsertVal(Parse(lines), key, val)) <==>
            DistinctSections(Parse(lines)) && HarmlessInside(Parse(lines), key, val)
  {
    var d := Parse(lines);
    match val
    case Scalar(item) =>
      CheckedRoot(lines, key);
      ScalarSections(d, key, item.text);
    case Table(entries) =>
      MergedUnclashed(lines, key, EntryLines(entries).value);
      TableSections(d, key, entries);
  }

  lemma InsideAfter(d: Doc, init: seq<(string, Val)>, key: string, val: Val)
    requires AllBare(init) && AllWritable(init)
    ensures HarmlessInside(InsertAll(d, init), key, val) <==> HarmlessInside(d, key, val)
  {
    var d' := InsertAll(d, init);
    NamesAfter(d, init, key, "");
    if val.Table? {
      forall i | 0 <= i < |val.entries|
        ensures SomeUnseen(BodyOf(d', key), val.entries[i].0) <==> SomeUnseen(BodyOf(d, key), val.entries[i].0)
      {
        NamesAfter(d, init, key, val.entries[i].0);
      }
    }
  }

  lemma LastSections(lines: Lines, extra: seq<(string, Val)>)
    requires extra != [] && Merge(lines, extra).Ok? && AllBare(extra)
    ensures var n := |extra| - 1;
            DistinctSections(InsertAll(Parse(lines), extra)) <==>
            DistinctSections(InsertAll(Parse(lines), extra[..n])) && HarmlessInside(Parse(lines), extra[n].0, extra[n].1)
  {
    var n := |extra| - 1;
    var init := extra[..n];
    assert AllBare(init) && BareVal(extra[n].0, extra[n].1);
    BarePlainKeys(init);
    MergeMeaning(lines, init);
    MergedWritable(lines, init);
    OneSections(Merge(lines, init).value, extra[n].0, extra[n].1);
    InsideAfter(Parse(lines), init, extra[n].0, extra[n].1);
  }

  lemma SectionsSnoc(d: Doc, extra: seq<(string, Val)>)
    requires extra != []
    ensures var n := |extra| - 1;
            HarmlessSections(d, extra) <==> HarmlessSections(d, extra[..n]) && HarmlessInside(d, extra[n].0, extra[n].1)
  {
    var n := |extra| - 1;
    assert forall i :: 0 <= i < n ==> extra[..n][i] == extra[i];
  }

  lemma {:induction false} AllSections(lines: Lines, extra: seq<(string, Val)>)
    requires Merge(lines, extra).Ok? && AllBare(extra)
    ensures DistinctSections(InsertAll(Parse(lines), extra)) <==> DistinctSections(Parse(lines)) && HarmlessSections(Parse(lines), extra)
  {
    if extra != [] {
      assert AllBare(extra[..|extra| - 1]);
      AllSections(lines, extra[..|extra| - 1]);
      LastSections(lines, extra);
      SectionsSnoc(Parse(lines), extra);
    }
  }

  /**
   Within the sections there is less to look at: for any rendered lines and any map of bare keys
   that merges, no section of the result has a key twice exactly when none had before, the keys
   within each table of the map differ, and no key of the map is spelled another way in its
   rendered section.
   */
  lemma BareSections(lines: Lines, extra: seq<(string, Val)>)
    requires Merge(lines, extra).Ok? && AllBare(extra)
    ensures DistinctSections(Parse(Merge(lines, extra).value)) <==> DistinctSections(Parse(lines)) && HarmlessSections(Parse(lines), extra)
  {
    BarePlainKeys(extra);
    MergeMeaning(lines, extra);
    AllSections(lines, extra);
  }
}
