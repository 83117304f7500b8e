/** The list of lines edited in place, item by item. */
module MergeExtraLoop {
  import opened Wrappers
  import opened MergeExtraSpec

  lemma {:induction false} MergeStays(lines: Lines, extra: seq<(string, Val)>, i: nat)
    requires i <= |extra| && Merge(lines, extra[..i]).Err?
    ensures Merge(lines, extra) == Merge(lines, extra[..i])
  {
    if i < |extra| {
      assert extra[..|extra| - 1][..i] == extra[..i];
      MergeStays(lines, extra[..|extra| - 1], i);
    } else {
      assert extra[..i] == extra;
    }
  }

  lemma {:induction false} EntriesStay(entries: seq<(string, Item)>, i: nat)
    requires i <= |entries| && EntryLines(entries[..i]).Err?
    ensures EntryLines(entries) == EntryLines(entries[..i])
  {
    if i < |entries| {
      assert entries[..|entries| - 1][..i] == entries[..i];
      EntriesStay(entries[..|entries| - 1], i);
    } else {
      assert entries[..i] == entries;
    }
  }

  method WriteEntries(entries: seq<(string, Item)>) returns (r: Result<Lines, MergeError>)
    ensures r == EntryLines(entries)
  {
    var out := [];
    for i := 0 to |entries|
      invariant EntryLines(entries[..i]) == Ok(out)
    {
      assert entries[..i + 1][..i] == entries[..i];
      var (k, item) := entries[i];
      match item
      case Nested =>
        EntriesStay(entries, i + 1);
        return Err(TooDeep);
      case Unsupported =>
        EntriesStay(entries, i + 1);
        return Err(NotScalar);
      case Value(t) => out := out + [Written(k, t)];
    }
    assert entries[..|entries|] == entries;
    return Ok(out);
  }

  method FindHeader(lines: Lines, from: nat) returns (j: nat)
    requires from <= |lines|
    ensures j == HeaderFrom(lines, from)
  {
    j := from;
    while j < |lines| && !IsHeader(lines[j])
      invariant from <= j <= |lines| && HeaderFrom(lines, from) == HeaderFrom(lines, j)
    {
      j := j + 1;
    }
  }

  method FindLine(lines: Lines, l: string) returns (at: nat)
    ensures at == IndexOf(lines, l)
  {
    at := 0;
    while at < |lines| && lines[at] != l
      invariant at <= |lines| && forall k :: 0 <= k < at ==> lines[k] != l
    {
      at := at + 1;
    }
  }

  method AnyClash(lines: Lines, key: string) returns (b: bool)
    ensures b == Clashes(lines, key)
  {
    for i := 0 to |lines|
      invariant forall k :: 0 <= k < i ==> !StartsWith(lines[k], key + " ")
    {
      if StartsWith(lines[i], key + " ") { return true; }
    }
    return false;
  }

  class Rendering {
    var lines: Lines

    constructor (lines: Lines)
      ensures this.lines == lines
    {
      this.lines := lines;
    }

    method MergeTableInto(header: string, entries: Lines) returns (err: Option<MergeError>)
      modifies this
      ensures match MergeTable(old(lines), header, entries)
              case Ok(out) => err == None && lines == out
              case Err(e) => err == Some(e) && lines == old(lines)
    {
      var at := FindLine(lines, header);
      if at == |lines| {
        lines := lines + ["", header] + entries;
        return None;
      }
      var end := FindHeader(lines, at + 1);
      for i := 0 to |entries|
        invariant lines == old(lines) && forall k :: 0 <= k < i ==> !Clashes(lines[at + 1..end], KeyOf(entries[k]))
      {
        var clash := AnyClash(lines[at + 1..end], KeyOf(entries[i]));
        if clash { return Some(Collision); }
      }
      lines := lines[..at + 1] + entries + lines[at + 1..];
      return None;
    }

    method MergeScalarInto(key: string, item: Item) returns (err: Option<MergeError>)
      modifies this
      ensures match MergeOne(old(lines), key, Scalar(item))
              case Ok(out) => err == None && lines == out
              case Err(e) => err == Some(e) && lines == old(lines)
    {
      for i := 0 to |lines|
        invariant lines == old(lines)
        invariant forall k :: 0 <= k < i ==> IsHeader(lines[k]) || !StartsWith(lines[k], key + " ")
      {
        if !IsHeader(lines[i]) && StartsWith(lines[i], key + " ") { return Some(Collision); }
      }
      var first := FindHeader(lines, 0);
      if !item.Value? { return Some(NotScalar); }
      lines := lines[..first] + [Written(key, item.text)] + lines[first..];
      return None;
    }

    method MergeItem(key: string, val: Val) returns (err: Option<MergeError>)
      modifies this
      ensures match MergeOne(old(lines), key, val)
              case Ok(out) => err == None && lines == out
              case Err(e) => err == Some(e) && lines == old(lines)
    {
      match val
      case Scalar(item) => err := MergeScalarInto(key, item);
      case Table(entries) =>
        var written := WriteEntries(entries);
        if written.Err? { return Some(written.error); }
        err := MergeTableInto("[" + key + "]", written.value);
    }

    /** `merge_extra`: stops at the first item that cannot be merged. */
    method MergeExtra(extra: seq<(string, Val)>) returns (err: Option<MergeError>)
      modifies this
      ensures match Merge(old(lines), extra)
              case Ok(out) => err == None && lines == out
              case Err(e) => err == Some(e)
    {
      for i := 0 to |extra|
        invariant Merge(old(lines), extra[..i]) == Ok(lines)
      {
        assert extra[..i + 1][..i] == extra[..i];
        err := MergeItem(extra[i].0, extra[i].1);
        if err.Some? {
          MergeStays(old(lines), extra, i + 1);
          return;
        }
      }
      assert extra[..|extra|] == extra;
      return None;
    }
  }
}
