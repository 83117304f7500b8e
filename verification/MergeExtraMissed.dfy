/** How other spellings are read, and keys that the check of `merge_extra` misses. */
module MergeExtraMissed {
  import opened Wrappers
  import opened MergeExtraSpec
  import opened MergeExtra
  import opened MergeExtraTheorems
  import opened MergeExtraToml
  import opened MergeExtraKeys
  import opened MergeExtraBare
  import opened MergeExtraMaps

  // ---- blanks ----

  predicate Blanks(b: string) { forall i :: 0 <= i < |b| ==> Blank(b[i]) }

  lemma {:induction false} StopBlanks(b: string, rest: string, stop: char)
    requires Blanks(b) && !Blank(stop)
    ensures StopAt(b + rest, stop, None) == |b| + StopAt(rest, stop, None)
  {
    if b == "" {
      assert b + rest == rest;
    } else {
      StopBlanks(b[1..], rest, stop);
      assert (b + rest)[1..] == b[1..] + rest;
    }
  }

  lemma {:induction false} TrimBlanks(k: string, b: string)
    requires k != "" && !Blank(k[|k| - 1]) && Blanks(b)
    ensures TrimRight(k + b) == k
    decreases |b|
  {
    var s := k + b;
    if b == "" {
      assert s == k;
    } else {
      assert s[..|s| - 1] == k + b[..|b| - 1];
      TrimBlanks(k, b[..|b| - 1]);
    }
  }

  lemma {:induction false} TrimFront(b: string, k: string)
    requires k != "" && !Blank(k[0]) && Blanks(b)
    ensures TrimLeft(b + k) == k
  {
    if b == "" {
      assert b + k == k;
    } else {
      TrimFront(b[1..], k);
      assert (b + k)[1..] == b[1..] + k;
    }
  }

  /** Blanks around a name are not part of it. */
  lemma PartsPadded(k: string, b: string, c: string)
    requires Bare(k) && Blanks(b) && Blanks(c)
    ensures Parts(b + k + c) == [k]
  {
    var s := b + k + c;
    assert s == b + (k + c) && c == c + "";
    StopBlanks(b, k + c, '.');
    StopPast(k, c, '.');
    StopBlanks(c, "", '.');
    assert s[..|s|] == s && !Blank((k + c)[0]);
    TrimFront(b, k + c);
    TrimBlanks(k, c);
    TrimBare(k);
  }

  lemma KeyPadded(k: string, c: string, rest: string)
    requires Bare(k) && Blanks(c)
    ensures Key(k + c + "=" + rest) == Some([k])
  {
    var l := k + c + "=" + rest;
    assert l == k + (c + ("=" + rest));
    StopPast(k, c + ("=" + rest), '=');
    StopBlanks(c, "=" + rest, '=');
    assert l[..|k| + |c|] == "" + k + c;
    PartsPadded(k, "", c);
    assert l[0] == k[0] && TrimLeft(l) == l && l[..1] == [k[0]];
  }

  lemma HeadPadded(k: string, b: string)
    requires Bare(k) && Blanks(b)
    ensures HeadOf("[" + (b + k) + "]") == Head([k], false)
  {
    var h := "[" + (b + k) + "]";
    assert h[1..] == b + (k + "]");
    StopBlanks(b, k + "]", ']');
    StopPast(k, "]", ']');
    assert h[1..][..|b| + |k|] == b + k + "";
    PartsPadded(k, b, "");
    assert h[1] == (b + k)[0] && h[..2][1] == h[1];
  }

  // ---- quotes ----

  function InQuotes(k: string): string { "\"" + k + "\"" }

  /** Nothing that a quoted key would have to escape. */
  predicate Unescaped(k: string) { forall i :: 0 <= i < |k| ==> k[i] != '"' && k[i] != '\\' }

  lemma {:induction false} StopInQuotes(k: string, rest: string, stop: char)
    requires Unescaped(k)
    ensures StopAt(k + "\"" + rest, stop, Some('"')) == |k| + 1 + StopAt(rest, stop, None)
  {
    var l := k + "\"" + rest;
    if k == "" {
      assert l[0] == '"' && l[1..] == rest;
    } else {
      StopInQuotes(k[1..], rest, stop);
      assert l[0] == k[0] && l[1..] == k[1..] + "\"" + rest;
    }
  }

  lemma StopQuoted(k: string, rest: string, stop: char)
    requires Unescaped(k) && !Quote(stop)
    ensures StopAt(InQuotes(k) + rest, stop, None) == |k| + 2 + StopAt(rest, stop, None)
  {
    var l := InQuotes(k) + rest;
    StopInQuotes(k, rest, stop);
    assert l[0] == '"' && l[1..] == k + "\"" + rest;
  }

  lemma PartsQuoted(k: string, b: string)
    requires Unescaped(k) && Blanks(b)
    ensures Parts(InQuotes(k) + b) == [k]
  {
    var q := InQuotes(k);
    var s := q + b;
    StopQuoted(k, b, '.');
    StopBlanks(b, "", '.');
    assert b + "" == b && s[..|s|] == s && s[0] == '"' && TrimLeft(s) == s;
    TrimBlanks(q, b);
    assert q[0] == '"' == q[|q| - 1] && q[1..|q| - 1] == k;
  }

  /** Quotes around a name are not part of it. */
  lemma KeyQuoted(k: string, text: string)
    requires Unescaped(k)
    ensures Key(Written(InQuotes(k), text)) == Some([k])
  {
    var q, l := InQuotes(k), Written(InQuotes(k), text);
    assert l == q + (" " + ("= " + text));
    StopQuoted(k, " " + ("= " + text), '=');
    StopBlanks(" ", "= " + text, '=');
    assert l[..|q| + 1] == q + " ";
    PartsQuoted(k, " ");
    assert l[0] == '"' && TrimLeft(l) == l && l[..1] == "\"";
  }

  /** The templates quote the keys of `[peers]` and its like: the check sees none of them. */
  lemma QuotedUnseen(s: string, v: string, k: string)
    requires Unescaped(s) && Bare(k)
    ensures Unseen(Written(InQuotes(s), v), k) <==> s == k
    ensures !IsHeader(Written(InQuotes(s), v)) && !StartsWith(Written(InQuotes(s), v), k + " ")
  {
    var l := Written(InQuotes(s), v);
    KeyQuoted(s, v);
    assert l[0] == '"' && (k + " ")[0] == k[0] && l[..1] == "\"";
    DiffersAt(l, k + " ", 0);
  }

  lemma {:induction false} PartsDotted(t: string, s: string)
    requires Bare(t) && Unescaped(s)
    ensures Parts(t + ("." + InQuotes(s))) == [t, s]
  {
    var q := InQuotes(s);
    var p := t + ("." + q);
    StopPast(t, "." + q, '.');
    assert ("." + q)[0] == '.' && p[..|t|] == t && p[|t| + 1..] == q + "";
    TrimBare(t);
    PartsQuoted(s, "");
    assert Parts(p) == [t] + Parts(q + "");
  }

  lemma {:induction false} StopDotted(t: string, s: string)
    requires Bare(t) && Unescaped(s)
    ensures StopAt(t + ("." + (InQuotes(s) + "]")), ']', None) == |t| + 1 + |InQuotes(s)|
  {
    var r := "." + (InQuotes(s) + "]");
    StopPast(t, r, ']');
    assert r[0] == '.' && r[1..] == InQuotes(s) + "]";
    StopQuoted(s, "]", ']');
    assert StopAt("]", ']', None) == 0;
  }

  /** They also write `[t."s"]`, the table `s` below `t`. */
  lemma {:induction false} HeadDotted(t: string, s: string)
    requires Bare(t) && Unescaped(s)
    ensures HeadOf("[" + t + "." + InQuotes(s) + "]") == Head([t, s], false)
  {
    var h, q := "[" + t + "." + InQuotes(s) + "]", InQuotes(s);
    assert h[1] == t[0] && h[..2][1] == t[0];
    assert h[1..] == t + ("." + (q + "]"));
    StopDotted(t, s);
    assert h[1..][..|t| + 1 + |q|] == t + ("." + q);
    PartsDotted(t, s);
  }

  // ---- scalars that slip through ----

  lemma TwoKeys(a: string, b: string, k: Path)
    requires Key(a) == Some(k) && Key(b) == Some(k) && !IsHeader(a) && !IsHeader(b)
    ensures DistinctDoc(Parse([a])) && !DistinctDoc(Parse([a] + [b]))
  {
    ParsePlain([a]);
    ParsePlain([a] + [b]);
    assert ([a] + [b])[..1] == [a] && [a][..0] == [];
    var x := Line(0, [], false, k);
    assert LineDefs(0, [], false, [a]) == [x];
    assert LineDefs(0, [], false, [a] + [b]) == [x] + [x];
    assert Defs(Doc([a], [])) == [x] && Defs(Doc([a] + [b], [])) == [x] + [x];
    assert Conflict(([x] + [x])[0], ([x] + [x])[1]);
  }

  /** The rendered line defined nothing twice; with the scalar merged beside it, it does. */
  ghost predicate Doubles(a: string, key: string, text: string) {
    var r := MergeOne([a], key, Scalar(Value(text)));
    r.Ok? && DistinctDoc(Parse([a])) && !DistinctDoc(Parse(r.value))
  }

  /** A scalar whose line reads like the rendered one, though the check does not see it. */
  lemma ScalarRepeats(a: string, key: string, text: string, k: Path)
    requires Key(a) == Some(k) && Key(Written(key, text)) == Some(k) && !IsHeader(a) && !StartsWith(key, "[")
    requires !StartsWith(a, key + " ")
    ensures Doubles(a, key, text)
  {
    WrittenHeader(key, text);
    TwoKeys(a, Written(key, text), k);
    assert HeaderFrom([a], 0) == 1;
    assert [a][..1] == [a] && [a][1..] == [] && [a] + [Written(key, text)] + [] == [a] + [Written(key, text)];
  }

  lemma DiffersAt(a: string, p: string, n: nat)
    requires n < |a| && n < |p| && a[n] != p[n]
    ensures !StartsWith(a, p)
  {
    if |p| <= |a| { assert a[..|p|][n] == a[n]; }
  }

  lemma SamePrefix(x: string, v: string, w: string)
    ensures StartsWith(x + v, x + w) ==> StartsWith(v, w)
  {
    if StartsWith(x + v, x + w) { assert v[..|w|] == (x + v)[..|x| + |w|][|x|..] == (x + w)[|x|..] == w; }
  }

  lemma Rendered(k: string, v: string)
    requires Bare(k)
    ensures Key(Written(k, v)) == Some([k]) && !IsHeader(Written(k, v)) && !StartsWith(k, "[")
  {
    KeyBare(k, v);
    BareIsPlain(k);
    WrittenHeader(k, v);
  }

  /** Beside a rendered `k = v`, the scalar `k = w`. */
  lemma EqualsKeyRepeats(k: string, v: string, w: string, text: string)
    requires Bare(k) && !StartsWith(v, w + " ")
    ensures Doubles(Written(k, v), k + " = " + w, text)
  {
    var key := k + " = " + w;
    Rendered(k, v);
    assert Written(key, text) == k + " " + "=" + (" " + w + " = " + text);
    KeyPadded(k, " ", " " + w + " = " + text);
    assert key[..1] == k[..1];
    assert key + " " == k + " = " + (w + " ");
    SamePrefix(k + " = ", v, w + " ");
    ScalarRepeats(Written(k, v), key, text, [k]);
  }

  /** Beside it, the scalar `k` with blanks at its end. */
  lemma BlankKeyRepeats(k: string, v: string, b: string, text: string)
    requires Bare(k) && Blanks(b) && b != ""
    ensures Doubles(Written(k, v), k + b, text)
  {
    Rendered(k, v);
    assert Written(k + b, text) == k + (b + " ") + "=" + (" " + text);
    KeyPadded(k, b + " ", " " + text);
    assert (k + b)[..1] == k[..1];
    var a, p, n := Written(k, v), k + b + " ", |k| + 1;
    assert a[n] == '=' && Blank(p[n]);
    DiffersAt(a, p, n);
    ScalarRepeats(a, k + b, text, [k]);
  }

  /** Beside it, the scalar `k` in quotes. */
  lemma QuotedKeyRepeats(k: string, v: string, text: string)
    requires Bare(k)
    ensures Doubles(Written(k, v), InQuotes(k), text)
  {
    var a, p := Written(k, v), InQuotes(k) + " ";
    Rendered(k, v);
    BareUnescaped(k);
    KeyQuoted(k, text);
    assert InQuotes(k)[..1] == "\"" && a[0] == k[0] && p[0] == '"';
    DiffersAt(a, p, 0);
    ScalarRepeats(a, InQuotes(k), text, [k]);
  }

  lemma BareUnescaped(k: string)
    requires BareChars(k)
    ensures Unescaped(k)
  {
    forall i | 0 <= i < |k| ensures k[i] != '"' && k[i] != '\\' { assert BareChar(k[i]); }
  }

  // ---- tables that slip through ----

  lemma {:induction false} TableParse(h: string, body: Lines)
    requires IsHeader(h) && NoHeader(body)
    ensures Parse([h] + body) == Doc([], [(h, body)])
  {
    var d := Doc([], [(h, [])]);
    assert [h][..0] == [] && Parse([h]) == d;
    ParseConcat([h], body);
    ParsePlain(body);
    assert [] + body == body && Join(d, Doc(body, [])) == Doc([], [(h, body)]);
  }

  lemma {:induction false} TableDoc(h: string, body: Lines)
    requires IsHeader(h) && NoHeader(body)
    ensures Parse([h] + body) == Doc([], [(h, body)])
    ensures Defs(Doc([], [(h, body)])) == [Opens(HeadOf(h))] + Under(0, h, body)
  {
    var ts := [(h, body)];
    TableParse(h, body);
    assert ts[..0] == [] && TablesDefs(ts[..0]) == [];
    assert TablesDefs(ts) == [] + TableDefs(0, h, body);
  }

  lemma {:induction false} HeadAlone(h: string)
    requires IsHeader(h)
    ensures Parse([h]) == Doc([], [(h, [])]) && Defs(Parse([h])) == [Opens(HeadOf(h))] && DistinctDoc(Parse([h]))
  {
    TableDoc(h, []);
    assert [h] + [] == [h];
  }

  /** Another header that is read as a rendered one opens it again. */
  lemma {:induction false} SecondHead(g: string, key: string, k: string)
    requires IsHeader(g) && g != "[" + key + "]" && HeadOf(g) == Head([k], false) == HeadOf("[" + key + "]")
    ensures Repeats(Parse([g]), key, Table([]))
  {
    var x := Opens(Head([k], false));
    HeadAlone(g);
    assert NewDefs(Parse([g]), key, Table([])) == [x] + [];
    assert Conflict([x][0], [x][0]);
  }

  /** Beside a rendered table `[k]`, a table named `k` with blanks in front is a second one. */
  lemma {:induction false} BlankTableRepeats(k: string, b: string)
    requires Bare(k) && Blanks(b) && b != ""
    ensures var lines := ["[" + k + "]"]; var r := MergeOne(lines, b + k, Table([]));
            r.Ok? && DistinctDoc(Parse(lines)) && !DistinctDoc(Parse(r.value))
  {
    var g, h := "[" + k + "]", "[" + (b + k) + "]";
    HeadBare(k);
    HeadPadded(k, b);
    BracketsAreHeader(k);
    HeadAlone(g);
    assert g[1] == k[0] && h[1] == b[0] && g != h;
    assert IndexOf([g], h) == 1;
    SecondHead(g, b + k, k);
    OneMeaning([g], b + k, Table([]));
    OneDistinct(Parse([g]), b + k, Table([]));
  }

  /** A table of one entry. */
  function Single(t: string, k: string, text: string): seq<(string, Val)> { [(t, Table([(k, Value(text))]))] }

  lemma SingleLines(k: string, text: string)
    ensures EntryLines([(k, Value(text))]) == Ok([Written(k, text)])
  {
    var entries: seq<(string, Item)> := [(k, Value(text))];
    assert entries[..0] == [] && EntryLines(entries[..0]).value == [];
    assert [] + [Written(k, text)] == [Written(k, text)];
  }

  lemma SingleMerge(lines: Lines, t: string, k: string, text: string)
    requires Bare(t) && Bare(k) && !Clashes(BodyOf(Parse(lines), t), k)
    ensures Merge(lines, Single(t, k, text)).Ok? && AllBare(Single(t, k, text))
  {
    var x := Single(t, k, text);
    assert x[..0] == [];
    assert Merge(lines, x[..0]) == Ok(lines);
    SingleLines(k, text);
    EqualsPast(k, text);
    BracketsAreHeader(t);
    if IndexOf(lines, "[" + t + "]") < |lines| { BodyIs(lines, "[" + t + "]"); }
    SingleTable(lines, "[" + t + "]", BodyOf(Parse(lines), t), Written(k, text));
  }

  lemma {:induction false} SingleTable(lines: Lines, h: string, body: Lines, e: string)
    requires var at := IndexOf(lines, h); at < |lines| ==> body == lines[at + 1..HeaderFrom(lines, at + 1)]
    requires !Clashes(body, KeyOf(e))
    ensures MergeTable(lines, h, [e]).Ok?
  {
    assert forall i :: 0 <= i < |[e]| ==> [e][i] == e;
  }

  /** Wherever a key of a rendered table is spelled another way only, the bare one merges and is
      a second one. */
  lemma {:induction false} UnseenRepeats(lines: Lines, t: string, k: string, text: string)
    requires Bare(t) && Bare(k) && SomeUnseen(BodyOf(Parse(lines), t), k) && !Clashes(BodyOf(Parse(lines), t), k)
    ensures var r := Merge(lines, Single(t, k, text)); r.Ok? && !DistinctDoc(Parse(r.value)) && !DistinctSections(Parse(r.value))
  {
    var x := Single(t, k, text);
    SingleMerge(lines, t, k, text);
    BareSections(lines, x);
    BareKeysDistinct(lines, x);
    assert !HarmlessInside(Parse(lines), x[0].0, x[0].1) && !HarmlessEntry(Parse(lines), t, x[0].1.entries[0].0);
  }

  /**
   A bare entry beside the same key rendered in quotes, as the templates do under `[peers]`,
   `[peer_verify_keys]`, `[peer_grpc_addrs]` and `[sae_bindings]`: it merges, and the section
   has the key twice.
   */
  lemma {:induction false} RenderedQuotedRepeats(t: string, k: string, v: string, text: string)
    requires Bare(t) && Bare(k)
    ensures var lines := ["[" + t + "]", Written(InQuotes(k), v)]; var r := Merge(lines, Single(t, k, text));
            && r.Ok? && DistinctDoc(Parse(lines)) && DistinctSections(Parse(lines))
            && !DistinctDoc(Parse(r.value)) && !DistinctSections(Parse(r.value))
  {
    var h, l := "[" + t + "]", Written(InQuotes(k), v);
    BareUnescaped(k);
    QuotedUnseen(k, v, k);
    KeyQuoted(k, v);
    BracketsAreHeader(t);
    HeadBare(t);
    OneTable(h, l, t);
    assert [l][0] == l && BodyOf(Parse([h, l]), t) == [l];
    UnseenRepeats([h, l], t, k, text);
  }

  lemma LineAlone(section: nat, at: Path, many: bool, l: string)
    requires Key(l).Some?
    ensures LineDefs(section, at, many, [l]) == [Line(section, at, many, Key(l).value)]
  {
    assert [l][..0] == [];
  }

  lemma TwoApart(d: Doc, x: Def, y: Def)
    requires Defs(d) == [x] + [y] && !Conflict(x, y)
    ensures DistinctDoc(d)
  {
    DistinctConcat([x], [y]);
  }

  lemma {:induction false} OneTable(h: string, l: string, t: string)
    requires IsHeader(h) && HeadOf(h) == Head([t], false) && !IsHeader(l) && Key(l).Some?
    ensures Parse([h, l]) == Doc([], [(h, [l])]) && DistinctDoc(Parse([h, l])) && DistinctSections(Parse([h, l]))
  {
    TableDoc(h, [l]);
    assert [h] + [l] == [h, l];
    OneTableDistinct(Doc([], [(h, [l])]), t, l, Key(l).value);
    OneTableSections(h, l);
  }

  lemma {:induction false} OneTableDistinct(d: Doc, t: string, l: string, p: Path)
    requires Key(l).Some? && Key(l).value == p && Defs(d) == [Opens(Head([t], false))] + LineDefs(1, [t], false, [l])
    ensures DistinctDoc(d)
  {
    var y := Line(1, [t], false, p);
    LineAlone(1, [t], false, l);
    HeadConflicts(t, y);
    TwoApart(d, Opens(Head([t], false)), y);
  }

  lemma {:induction false} OneTableSections(h: string, l: string)
    requires Key(l).Some?
    ensures DistinctSections(Doc([], [(h, [l])]))
  {
    LineAlone(0, [], false, l);
  }

  /** Wherever a rendered table is below the key, the entry merges and defines it as a value. */
  lemma {:induction false} BelowRepeats(lines: Lines, t: string, k: string, text: string)
    requires Bare(t) && Bare(k) && HasFrom(Parse(lines), [t, k]) && !Clashes(BodyOf(Parse(lines), t), k)
    ensures var r := Merge(lines, Single(t, k, text)); r.Ok? && !DistinctDoc(Parse(r.value))
  {
    var x := Single(t, k, text);
    SingleMerge(lines, t, k, text);
    BareKeysDistinct(lines, x);
    assert !HarmlessEntry(Parse(lines), t, x[0].1.entries[0].0);
  }

  /** A bare entry of the name of a table rendered below, as in `[peers."id"]`. */
  lemma {:induction false} DottedHeadRepeats(t: string, k: string, text: string)
    requires Bare(t) && Bare(k)
    ensures var lines := ["[" + t + "." + InQuotes(k) + "]"]; var r := Merge(lines, Single(t, k, text));
            r.Ok? && DistinctDoc(Parse(lines)) && !DistinctDoc(Parse(r.value))
  {
    var h := "[" + t + "." + InQuotes(k) + "]";
    BareUnescaped(k);
    HeadDotted(t, k);
    HeadBare(t);
    assert h[..1] == "[";
    HeadAlone(h);
    assert h != "[" + t + "]" by { assert [t, k] != [t]; }
    assert [t, k] <= HeadOf(Parse([h]).tables[0].0).path && BodyOf(Parse([h]), t) == [];
    BelowRepeats([h], t, k, text);
  }
}
