/** The file the edited lines are written to, and the lines read back from it. */
module MergeExtraText {
  import opened MergeExtraSpec
  import opened MergeExtraTheorems

  const NEWLINE: string := "\n"

  /** `"\n".join(lines)`. */
  function Joined(lines: Lines): string {
    if lines == [] then "" else if |lines| == 1 then lines[0] else lines[0] + NEWLINE + Joined(lines[1..])
  }

  function Text(lines: Lines): string { Joined(lines) + NEWLINE }

  predicate OneLine(l: string) { '\n' !in l }

  /** The text up to its first newline, and where that is. */
  function NewlineAt(t: string): (i: nat)
    ensures i <= |t| && OneLine(t[..i]) && (i < |t| ==> t[i] == '\n')
  {
    if t == "" || t[0] == '\n' then 0 else
    var i := NewlineAt(t[1..]);
    assert t[..i + 1] == [t[0]] + t[1..][..i];
    i + 1
  }

  /** The lines of a file. */
  function Read(t: string): Lines
    decreases |t|
  {
    if t == "" then [] else
    var i := NewlineAt(t);
    if i == |t| then [t] else [t[..i]] + Read(t[i + 1..])
  }

  ghost predicate OneLines(lines: Lines) { forall i :: 0 <= i < |lines| ==> OneLine(lines[i]) }

  lemma {:induction false} FirstNewline(t: string, n: nat)
    requires n < |t| && t[n] == '\n' && forall k :: 0 <= k < n ==> t[k] != '\n'
    ensures NewlineAt(t) == n
  {
    if n > 0 { FirstNewline(t[1..], n - 1); }
  }

  lemma ReadLine(l: string, rest: string)
    requires OneLine(l)
    ensures Read(l + NEWLINE + rest) == [l] + Read(rest)
  {
    var t := l + NEWLINE + rest;
    assert t[|l|] == '\n' && forall k :: 0 <= k < |l| ==> t[k] == l[k];
    FirstNewline(t, |l|);
    assert t[..|l|] == l && t[|l| + 1..] == rest;
  }

  lemma {:induction false} ReadOneLines(t: string)
    ensures OneLines(Read(t))
    decreases |t|
  {
    if t != "" {
      var i := NewlineAt(t);
      if i < |t| {
        ReadOneLines(t[i + 1..]);
      } else {
        assert t[..i] == t;
      }
    }
  }

  lemma {:induction false} ReadsBack(lines: Lines)
    requires lines != [] && OneLines(lines)
    ensures Read(Text(lines)) == lines
  {
    if |lines| == 1 {
      assert Text(lines) == lines[0] + NEWLINE + "";
      ReadLine(lines[0], "");
    } else {
      ReadsBack(lines[1..]);
      assert Text(lines) == lines[0] + NEWLINE + Text(lines[1..]);
      ReadLine(lines[0], Text(lines[1..]));
    }
  }

  /** The file stands for the lines exactly when there are some and none contains a newline. */
  lemma TextStandsForLines(lines: Lines)
    ensures Read(Text(lines)) == lines <==> lines != [] && OneLines(lines)
  {
    ReadOneLines(Text(lines));
    if lines != [] && OneLines(lines) {
      ReadsBack(lines);
    } else if lines == [] {
      assert Text(lines) == NEWLINE;
      assert NewlineAt(NEWLINE) == 0;
    }
  }

  // ---- which maps keep the lines whole ----

  ghost predicate OneLineVal(key: string, val: Val) {
    OneLine(key) &&
    match val
    case Scalar(item) => item.Value? ==> OneLine(item.text)
    case Table(entries) => forall i :: 0 <= i < |entries| ==> OneLine(entries[i].0) && (entries[i].1.Value? ==> OneLine(entries[i].1.text))
  }

  lemma OneLineConcat(a: string, b: string)
    ensures OneLine(a + b) <==> OneLine(a) && OneLine(b)
  {
    if OneLine(a + b) {
      assert forall i :: 0 <= i < |a| ==> (a + b)[i] == a[i];
      assert forall i :: 0 <= i < |b| ==> (a + b)[|a| + i] == b[i];
    }
  }

  lemma OneLinesConcat(a: Lines, b: Lines)
    ensures OneLines(a + b) <==> OneLines(a) && OneLines(b)
  {
    assert forall i :: 0 <= i < |a| ==> (a + b)[i] == a[i];
    assert forall i :: 0 <= i < |b| ==> (a + b)[|a| + i] == b[i];
  }

  lemma OneLinesOne(l: string)
    ensures OneLines([l]) <==> OneLine(l)
  {
    assert [l][0] == l;
  }

  lemma WrittenOneLine(key: string, text: string)
    ensures OneLine(Written(key, text)) <==> OneLine(key) && OneLine(text)
  {
    OneLineConcat(key + " = ", text);
    OneLineConcat(key, " = ");
  }

  lemma {:induction false} EntriesOneLine(entries: seq<(string, Item)>)
    requires EntryLines(entries).Ok?
    ensures OneLines(EntryLines(entries).value) <==>
            forall i :: 0 <= i < |entries| ==> OneLine(entries[i].0) && (entries[i].1.Value? ==> OneLine(entries[i].1.text))
  {
    if entries != [] {
      var init := entries[..|entries| - 1];
      var (k, item) := entries[|entries| - 1];
      EntriesOneLine(init);
      WrittenOneLine(k, item.text);
      OneLinesOne(Written(k, item.text));
      OneLinesConcat(EntryLines(init).value, [Written(k, item.text)]);
      assert forall i :: 0 <= i < |init| ==> init[i] == entries[i];
    }
  }

  lemma TableOneLines(lines: Lines, key: string, entries: Lines)
    requires MergeTable(lines, "[" + key + "]", entries).Ok?
    ensures OneLines(MergeTable(lines, "[" + key + "]", entries).value) <==> OneLines(lines) && OneLine(key) && OneLines(entries)
  {
    var h := "[" + key + "]";
    var at := IndexOf(lines, h);
    OneLineConcat("[" + key, "]");
    OneLineConcat("[", key);
    if at == |lines| {
      OneLinesConcat(lines + ["", h], entries);
      OneLinesConcat(lines, ["", h]);
      assert ["", h][1] == h;
    } else {
      assert lines == lines[..at + 1] + lines[at + 1..];
      OneLinesConcat(lines[..at + 1], lines[at + 1..]);
      OneLinesConcat(lines[..at + 1] + entries, lines[at + 1..]);
      OneLinesConcat(lines[..at + 1], entries);
    }
  }

  lemma OneItemOneLines(lines: Lines, key: string, val: Val)
    requires MergeOne(lines, key, val).Ok?
    ensures OneLines(MergeOne(lines, key, val).value) <==> OneLines(lines) && OneLineVal(key, val)
  {
    match val
    case Scalar(item) =>
      var n := HeaderFrom(lines, 0);
      WrittenOneLine(key, item.text);
      OneLinesOne(Written(key, item.text));
      assert lines == lines[..n] + lines[n..];
      OneLinesConcat(lines[..n], lines[n..]);
      OneLinesConcat(lines[..n], [Written(key, item.text)]);
      OneLinesConcat(lines[..n] + [Written(key, item.text)], lines[n..]);
    case Table(entries) =>
      EntriesOneLine(entries);
      TableOneLines(lines, key, EntryLines(entries).value);
  }

  lemma {:induction false} MergedOneLines(lines: Lines, extra: seq<(string, Val)>)
    requires Merge(lines, extra).Ok?
    ensures OneLines(Merge(lines, extra).value) <==>
            OneLines(lines) && forall i :: 0 <= i < |extra| ==> OneLineVal(extra[i].0, extra[i].1)
    ensures lines != [] ==> Merge(lines, extra).value != []
  {
    if extra != [] {
      var init := extra[..|extra| - 1];
      MergedOneLines(lines, init);
      OneItemOneLines(Merge(lines, init).value, extra[|extra| - 1].0, extra[|extra| - 1].1);
      assert forall i :: 0 <= i < |init| ==> init[i] == extra[i];
    }
  }

  /**
   The written file reads back as the merged lines exactly when no rendered line, key or value
   of the map contains a newline (quoting does not escape one), and then it stands for the
   edited document.
   */
  lemma FileMeaning(lines: Lines, extra: seq<(string, Val)>)
    requires lines != [] && Merge(lines, extra).Ok?
    ensures Read(Text(Merge(lines, extra).value)) == Merge(lines, extra).value <==>
            OneLines(lines) && forall i :: 0 <= i < |extra| ==> OneLineVal(extra[i].0, extra[i].1)
    ensures Read(Text(Merge(lines, extra).value)) == Merge(lines, extra).value && PlainKeys(extra)
            ==> Parse(Read(Text(Merge(lines, extra).value))) == InsertAll(Parse(lines), extra)
  {
    MergedOneLines(lines, extra);
    TextStandsForLines(Merge(lines, extra).value);
    if PlainKeys(extra) { MergeMeaning(lines, extra); }
  }
}
