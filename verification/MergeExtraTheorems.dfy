/** Merging a whole map: what stays and where things land. */
module MergeExtraTheorems {
  import opened MergeExtraSpec
  import opened MergeExtra

  // ---- nothing moves ----

  function Around(pre: Lines, a: Lines, post: Lines): Lines { pre + a + post }

  /** `a` is found in `b` in one piece. */
  ghost predicate Within(a: Lines, b: Lines) {
    exists pre, post :: b == Around(pre, a, post)
  }

  lemma WithinAt(a: Lines, pre: Lines, post: Lines)
    ensures Within(a, pre + a + post)
  {
    assert pre + a + post == Around(pre, a, post);
  }

  lemma WithinTransitive(a: Lines, b: Lines, c: Lines)
    requires Within(a, b) && Within(b, c)
    ensures Within(a, c)
  {
    var p, q :| b == Around(p, a, q);
    var r, s :| c == Around(r, b, s);
    assert c == Around(r + p, a, q + s);
  }

  lemma WithinMember(a: Lines, b: Lines, l: string)
    requires Within(a, b) && l in a
    ensures l in b
  {
    var p, q :| b == Around(p, a, q);
  }

  /** Every section keeps its place, its header and, in one piece, its lines. */
  ghost predicate Kept(d: Doc, d': Doc) {
    && Within(d.root, d'.root) && |d.tables| <= |d'.tables|
    && forall t :: 0 <= t < |d.tables| ==> d'.tables[t].0 == d.tables[t].0 && Within(d.tables[t].1, d'.tables[t].1)
  }

  lemma WithinSelf(a: Lines)
    ensures Within(a, a)
  {
    WithinAt(a, [], []);
    assert [] + a + [] == a;
  }

  lemma KeptSelf(d: Doc)
    ensures Kept(d, d)
  {
    WithinSelf(d.root);
    forall t | 0 <= t < |d.tables| ensures Within(d.tables[t].1, d.tables[t].1) { WithinSelf(d.tables[t].1); }
  }

  lemma KeptTransitive(a: Doc, b: Doc, c: Doc)
    requires Kept(a, b) && Kept(b, c)
    ensures Kept(a, c)
  {
    WithinTransitive(a.root, b.root, c.root);
    forall t | 0 <= t < |a.tables| ensures Within(a.tables[t].1, c.tables[t].1) {
      WithinTransitive(a.tables[t].1, b.tables[t].1, c.tables[t].1);
    }
  }

  lemma ScalarKeeps(d: Doc, line: string)
    ensures Kept(d, InsertScalar(d, line))
  {
    KeptSelf(d);
    WithinAt(d.root, [], [line]);
    assert [] + d.root + [line] == d.root + [line];
  }

  lemma ExtendKeeps(d: Doc, ls: Lines)
    ensures Kept(d, Extend(d, ls))
  {
    KeptSelf(d);
    if d.tables == [] {
      WithinAt(d.root, [], ls);
      assert [] + d.root + ls == d.root + ls;
    } else {
      var body := d.tables[|d.tables| - 1].1;
      WithinAt(body, [], ls);
      assert [] + body + ls == body + ls;
    }
  }

  lemma TableKeeps(d: Doc, header: string, entries: Lines)
    ensures Kept(d, InsertTable(d, header, entries))
  {
    var t := TableIndex(d.tables, header);
    if t == |d.tables| {
      ExtendKeeps(d, [""]);
    } else {
      KeptSelf(d);
      WithinAt(d.tables[t].1, entries, []);
      assert entries + d.tables[t].1 + [] == entries + d.tables[t].1;
    }
  }

  // ---- whole maps ----

  /** No scalar key and no entry key starts with a bracket. */
  ghost predicate PlainVal(key: string, val: Val) {
    match val
    case Scalar(_) => !StartsWith(key, "[")
    case Table(entries) => forall i :: 0 <= i < |entries| ==> !StartsWith(entries[i].0, "[")
  }

  ghost predicate PlainKeys(extra: seq<(string, Val)>) {
    forall i :: 0 <= i < |extra| ==> PlainVal(extra[i].0, extra[i].1)
  }

  function InsertVal(d: Doc, key: string, val: Val): Doc {
    match val
    case Scalar(Value(t)) => InsertScalar(d, Written(key, t))
    case Scalar(_) => d
    case Table(entries) =>
      match EntryLines(entries) case Ok(es) => InsertTable(d, "[" + key + "]", es) case Err(_) => d
  }

  function InsertAll(d: Doc, extra: seq<(string, Val)>): Doc {
    if extra == [] then d
    else InsertVal(InsertAll(d, extra[..|extra| - 1]), extra[|extra| - 1].0, extra[|extra| - 1].1)
  }

  /** Where an item of the map is found. */
  ghost predicate Placed(d: Doc, key: string, val: Val) {
    match val
    case Scalar(Value(t)) => Written(key, t) in d.root
    case Scalar(_) => true
    case Table(entries) =>
      var t := TableIndex(d.tables, "[" + key + "]");
      EntryLines(entries).Ok? ==> t < |d.tables| && forall e :: e in EntryLines(entries).value ==> e in d.tables[t].1
  }

  lemma {:induction false} EntriesPlain(entries: seq<(string, Item)>)
    requires EntryLines(entries).Ok? && forall i :: 0 <= i < |entries| ==> !StartsWith(entries[i].0, "[")
    ensures NoHeader(EntryLines(entries).value)
  {
    if entries != [] {
      var init := entries[..|entries| - 1];
      forall i | 0 <= i < |init| ensures !StartsWith(init[i].0, "[") { assert init[i] == entries[i]; }
      EntriesPlain(init);
      var (k, item) := entries[|entries| - 1];
      WrittenHeader(k, item.text);
    }
  }

  lemma OneMeaning(lines: Lines, key: string, val: Val)
    requires MergeOne(lines, key, val).Ok? && PlainVal(key, val)
    ensures Parse(MergeOne(lines, key, val).value) == InsertVal(Parse(lines), key, val)
  {
    match val
    case Scalar(item) => ScalarMeaning(lines, key, item.text);
    case Table(entries) =>
      EntriesPlain(entries);
      TableMeaning(lines, key, EntryLines(entries).value);
  }

  lemma OneKeeps(d: Doc, key: string, val: Val)
    ensures Kept(d, InsertVal(d, key, val))
  {
    KeptSelf(d);
    match val
    case Scalar(item) => if item.Value? { ScalarKeeps(d, Written(key, item.text)); }
    case Table(entries) => if EntryLines(entries).Ok? { TableKeeps(d, "[" + key + "]", EntryLines(entries).value); }
  }

  lemma OnePlaced(d: Doc, key: string, val: Val)
    ensures Placed(InsertVal(d, key, val), key, val)
  {
    match val
    case Scalar(item) =>
      if item.Value? {
        var r := d.root + [Written(key, item.text)];
        assert r[|r| - 1] in r;
      }
    case Table(entries) =>
      if EntryLines(entries).Ok? {
        var h, es := "[" + key + "]", EntryLines(entries).value;
        var t, d' := TableIndex(d.tables, h), InsertTable(d, h, es);
        if t == |d.tables| {
          var x := Extend(d, [""]);
          assert forall k :: 0 <= k < |x.tables| ==> x.tables[k].0 == d.tables[k].0;
          FirstAt(d'.tables, h, t);
        } else {
          FirstAt(d'.tables, h, t);
        }
      }
  }

  lemma FirstAt(tables: seq<(string, Lines)>, h: string, t: nat)
    requires t < |tables| && tables[t].0 == h && forall k :: 0 <= k < t ==> tables[k].0 != h
    ensures TableIndex(tables, h) == t
  {
  }

  lemma PlacedStays(d: Doc, d': Doc, key: string, val: Val)
    requires Placed(d, key, val) && Kept(d, d')
    ensures Placed(d', key, val)
  {
    match val
    case Scalar(item) => if item.Value? { WithinMember(d.root, d'.root, Written(key, item.text)); }
    case Table(entries) =>
      if EntryLines(entries).Ok? {
        var h := "[" + key + "]";
        var t := TableIndex(d.tables, h);
        assert forall k :: 0 <= k < t ==> d'.tables[k].0 == d.tables[k].0;
        FirstAt(d'.tables, h, t);
        forall e | e in EntryLines(entries).value ensures e in d'.tables[t].1 { WithinMember(d.tables[t].1, d'.tables[t].1, e); }
      }
  }

  ghost predicate AllPlaced(d: Doc, extra: seq<(string, Val)>) {
    forall i :: 0 <= i < |extra| ==> Placed(d, extra[i].0, extra[i].1)
  }

  lemma PlacedStep(d: Doc, init: seq<(string, Val)>, key: string, val: Val)
    requires AllPlaced(d, init)
    ensures AllPlaced(InsertVal(d, key, val), init + [(key, val)])
  {
    var extra, d' := init + [(key, val)], InsertVal(d, key, val);
    OneKeeps(d, key, val);
    OnePlaced(d, key, val);
    forall i | 0 <= i < |extra| ensures Placed(d', extra[i].0, extra[i].1) {
      if i < |init| { PlacedStays(d, d', init[i].0, init[i].1); }
    }
  }

  lemma KeptStep(d0: Doc, d: Doc, key: string, val: Val)
    requires Kept(d0, d)
    ensures Kept(d0, InsertVal(d, key, val))
  {
    OneKeeps(d, key, val);
    KeptTransitive(d0, d, InsertVal(d, key, val));
  }

  /**
   Merging preserves meaning: the edited lines stand for the edited document. Every rendered
   line stays under its header in its order; every scalar of the map is found before the
   first table and every table entry under its own header.
   */
  lemma {:induction false} MergeMeaning(lines: Lines, extra: seq<(string, Val)>)
    requires Merge(lines, extra).Ok? && PlainKeys(extra)
    ensures Parse(Merge(lines, extra).value) == InsertAll(Parse(lines), extra)
    ensures Kept(Parse(lines), InsertAll(Parse(lines), extra)) && AllPlaced(InsertAll(Parse(lines), extra), extra)
  {
    if extra == [] {
      KeptSelf(Parse(lines));
    } else {
      var init := extra[..|extra| - 1];
      var (key, val) := extra[|extra| - 1];
      forall i | 0 <= i < |init| ensures PlainVal(init[i].0, init[i].1) { assert init[i] == extra[i]; }
      MergeMeaning(lines, init);
      OneMeaning(Merge(lines, init).value, key, val);
      KeptStep(Parse(lines), InsertAll(Parse(lines), init), key, val);
      PlacedStep(InsertAll(Parse(lines), init), init, key, val);
      assert init + [(key, val)] == extra;
    }
  }
}
