/**
 DKMS headers and the additional authenticated data computed from them
 (dkms/src/e2e.rs, `aad`).

 The sender holds its header in a map ordered by key (`BTreeMap`), modelled by the
 ascending list of its entries. The receiver gets an unordered map (`HashMap`), modelled
 by its entries in whatever order the map yields them, and sorts it again.
 */
module Headers {
  import opened Wrappers
  import opened Bytes

  type Entry = (Text, Text)
  type Entries = seq<Entry>

  /** "e2e_tag" */
  const HDR_E2E_TAG: Text := [0x65, 0x32, 0x65, 0x5F, 0x74, 0x61, 0x67]
  /** "e2e_epoch" */
  const HDR_E2E_EPOCH: Text := [0x65, 0x32, 0x65, 0x5F, 0x65, 0x70, 0x6F, 0x63, 0x68]
  /** "e2e_ctr" */
  const HDR_E2E_CTR: Text := [0x65, 0x32, 0x65, 0x5F, 0x63, 0x74, 0x72]
  /** "incarnation" */
  const HDR_INCARNATION: Text := [0x69, 0x6E, 0x63, 0x61, 0x72, 0x6E, 0x61, 0x74, 0x69, 0x6F, 0x6E]
  /** "dkms.e2e.v1" */
  const AAD_DOMAIN: Text := [0x64, 0x6B, 0x6D, 0x73, 0x2E, 0x65, 0x32, 0x65, 0x2E, 0x76, 0x31]

  // ---- order on keys ----

  /** Bytewise lexicographic order. */
  predicate Less(a: Text, b: Text) {
    b != [] && (a == [] || a[0] < b[0] || (a[0] == b[0] && Less(a[1..], b[1..])))
  }

  lemma {:induction false} LessTotal(a: Text, b: Text)
    ensures a == b || Less(a, b) || Less(b, a)
    ensures !Less(a, a)
  {
    if a != [] {
      LessTotal(a[1..], if b != [] then b[1..] else []);
      if b != [] && a[0] == b[0] && a[1..] == b[1..] {
        assert a == [a[0]] + a[1..] && b == [b[0]] + b[1..];
      }
    }
  }

  /** `a` comes first: it is a proper beginning of `b`, or has the smaller byte where they part. */
  ghost predicate Before(a: Text, b: Text, n: nat) {
    && n <= |a| && n < |b| && a[..n] == b[..n] && (n < |a| ==> a[n] < b[n])
  }

  lemma {:induction false} LessWhere(a: Text, b: Text) returns (n: nat)
    requires Less(a, b)
    ensures Before(a, b, n)
  {
    if a == [] || a[0] < b[0] {
      n := 0;
    } else {
      var m := LessWhere(a[1..], b[1..]);
      n := m + 1;
      assert a[..n] == [a[0]] + a[1..][..m] && b[..n] == [b[0]] + b[1..][..m];
    }
  }

  lemma {:induction false} BeforeLess(a: Text, b: Text, n: nat)
    requires Before(a, b, n)
    ensures Less(a, b)
    decreases n
  {
    if n > 0 {
      assert a[0] == a[..n][0] == b[..n][0] == b[0];
      assert a[1..][..n - 1] == a[..n][1..] == b[..n][1..] == b[1..][..n - 1];
      BeforeLess(a[1..], b[1..], n - 1);
    }
  }

  lemma {:induction false} LessTransitive(a: Text, b: Text, c: Text)
    requires Less(a, b) && Less(b, c)
    ensures Less(a, c)
  {
    if a != [] && a[0] == b[0] && b[0] == c[0] {
      LessTransitive(a[1..], b[1..], c[1..]);
    }
  }

  // ---- maps as lists of entries ----

  ghost predicate Distinct(h: Entries) {
    forall i, j :: 0 <= i < j < |h| ==> h[i].0 != h[j].0
  }

  ghost predicate Ascending(h: Entries) {
    forall i, j :: 0 <= i < j < |h| ==> Less(h[i].0, h[j].0)
  }

  function Lookup(h: Entries, k: Text): (v: Option<Text>) {
    if h == [] then None else if h[0].0 == k then Some(h[0].1) else Lookup(h[1..], k)
  }

  /** `BTreeMap::insert`. */
  function Insert(h: Entries, k: Text, v: Text): (r: Entries) {
    if h == [] || Less(k, h[0].0) then [(k, v)] + h
    else if h[0].0 == k then [(k, v)] + h[1..]
    else [h[0]] + Insert(h[1..], k, v)
  }

  /** `BTreeMap::remove`. */
  function Remove(h: Entries, k: Text): (r: Entries) {
    if h == [] then [] else (if h[0].0 == k then [] else [h[0]]) + Remove(h[1..], k)
  }

  /** An unordered map collected into an ordered one. */
  function Collect(h: Entries): (r: Entries) {
    if h == [] then [] else Insert(Collect(h[..|h| - 1]), h[|h| - 1].0, h[|h| - 1].1)
  }

  lemma {:induction false} LookupAbsent(h: Entries, k: Text)
    ensures Lookup(h, k) == None <==> forall i :: 0 <= i < |h| ==> h[i].0 != k
  {
    if h != [] {
      LookupAbsent(h[1..], k);
      if h[0].0 != k && Lookup(h[1..], k) == None {
        forall i | 0 <= i < |h| ensures h[i].0 != k {
          if i > 0 { assert h[1..][i - 1] == h[i]; }
        }
      }
    }
  }

  /** Every key below the first one of an ascending list is absent from it. */
  lemma LookupBelow(h: Entries, k: Text)
    requires Ascending(h) && h != [] && Less(k, h[0].0)
    ensures Lookup(h, k) == None
  {
    forall i | 0 <= i < |h| ensures h[i].0 != k {
      if i > 0 { LessTransitive(k, h[0].0, h[i].0); }
      LessTotal(k, k);
    }
    LookupAbsent(h, k);
  }

  lemma {:induction false} InsertKeys(h: Entries, k: Text, v: Text)
    ensures forall e :: e in Insert(h, k, v) ==> e == (k, v) || e in h
  {
    if h != [] && !Less(k, h[0].0) && h[0].0 != k { InsertKeys(h[1..], k, v); }
  }

  lemma {:induction false} InsertAscending(h: Entries, k: Text, v: Text)
    requires Ascending(h)
    ensures Ascending(Insert(h, k, v))
  {
    var r := Insert(h, k, v);
    if h == [] {
    } else if Less(k, h[0].0) {
      forall j | 0 < j < |r| ensures Less(k, r[j].0) {
        if j > 1 { LessTransitive(k, h[0].0, h[j - 1].0); }
      }
    } else if h[0].0 == k {
    } else {
      InsertAscending(h[1..], k, v);
      InsertKeys(h[1..], k, v);
      LessTotal(h[0].0, k);
      var t := Insert(h[1..], k, v);
      forall j | 0 <= j < |t| ensures Less(h[0].0, t[j].0) {
        assert t[j] in t;
        assert t[j] == (k, v) || t[j] in h[1..];
      }
    }
  }

  lemma {:induction false} InsertLookup(h: Entries, k: Text, v: Text, x: Text)
    requires Ascending(h)
    ensures Lookup(Insert(h, k, v), x) == if x == k then Some(v) else Lookup(h, x)
  {
    if h != [] && !Less(k, h[0].0) {
      if h[0].0 == k {
        assert ([(k, v)] + h[1..])[1..] == h[1..];
      } else {
        InsertLookup(h[1..], k, v, x);
        assert ([h[0]] + Insert(h[1..], k, v))[1..] == Insert(h[1..], k, v);
      }
    } else {
      assert ([(k, v)] + h)[1..] == h;
    }
  }

  lemma {:induction false} RemoveMembers(h: Entries, k: Text)
    ensures forall e :: e in Remove(h, k) <==> e in h && e.0 != k
  {
    if h != [] {
      RemoveMembers(h[1..], k);
      assert h == [h[0]] + h[1..];
    }
  }

  lemma TailMember(h: Entries, e: Entry)
    requires h != [] && e in h[1..]
    ensures exists i :: 0 < i < |h| && h[i] == e
  {
    var i :| 0 <= i < |h[1..]| && h[1..][i] == e;
    assert h[i + 1] == e;
  }

  lemma {:induction false} RemoveAscending(h: Entries, k: Text)
    ensures forall e :: e in Remove(h, k) <==> e in h && e.0 != k
    ensures Ascending(h) ==> Ascending(Remove(h, k))
  {
    RemoveMembers(h, k);
    if h != [] && Ascending(h) {
      RemoveAscending(h[1..], k);
      var t := Remove(h[1..], k);
      forall j | 0 <= j < |t| ensures Less(h[0].0, t[j].0) {
        assert t[j] in t;
        TailMember(h, t[j]);
      }
    }
  }

  lemma {:induction false} RemoveLookup(h: Entries, k: Text, x: Text)
    ensures Lookup(Remove(h, k), x) == if x == k then None else Lookup(h, x)
  {
    if h != [] {
      RemoveLookup(h[1..], k, x);
      if h[0].0 != k {
        assert ([h[0]] + Remove(h[1..], k))[1..] == Remove(h[1..], k);
      } else {
        assert [] + Remove(h[1..], k) == Remove(h[1..], k);
      }
    }
  }

  lemma {:induction false} LookupAppend(h: Entries, e: Entry, x: Text)
    ensures Lookup(h + [e], x) ==
            match Lookup(h, x) case Some(v) => Some(v) case None => if e.0 == x then Some(e.1) else None
  {
    if h == [] {
      assert h + [e] == [e] && [e][1..] == [];
    } else {
      LookupAppend(h[1..], e, x);
      assert (h + [e])[1..] == h[1..] + [e];
    }
  }

  /** Collecting entries in any order keeps what each key maps to and sorts the keys. */
  lemma {:induction false} CollectSorts(h: Entries, x: Text)
    requires Distinct(h)
    ensures Ascending(Collect(h))
    ensures Lookup(Collect(h), x) == Lookup(h, x)
  {
    if h != [] {
      var p, e := h[..|h| - 1], h[|h| - 1];
      CollectSorts(p, x);
      InsertAscending(Collect(p), e.0, e.1);
      InsertLookup(Collect(p), e.0, e.1, x);
      assert h == p + [e];
      LookupAppend(p, e, x);
      if x == e.0 { LookupAbsent(p, x); }
    }
  }

  ghost predicate SameMap(a: Entries, b: Entries) {
    forall k :: Lookup(a, k) == Lookup(b, k)
  }

  /** A map has exactly one ascending list of entries. */
  lemma {:induction false} AscendingUnique(a: Entries, b: Entries)
    requires Ascending(a) && Ascending(b) && SameMap(a, b)
    ensures a == b
  {
    assert a != [] ==> Lookup(a, a[0].0).Some?;
    assert b != [] ==> Lookup(b, b[0].0).Some?;
    if a != [] && b != [] {
      LessTotal(a[0].0, b[0].0);
      if Less(a[0].0, b[0].0) {
        LookupBelow(b, a[0].0);
        assert false;
      } else if Less(b[0].0, a[0].0) {
        LookupBelow(a, b[0].0);
        assert false;
      } else {
        assert Lookup(a, a[0].0) == Lookup(b, a[0].0);
        forall k ensures Lookup(a[1..], k) == Lookup(b[1..], k) {
          assert Lookup(a, k) == Lookup(b, k);
          if k == a[0].0 { TailLacksHead(a); TailLacksHead(b); }
        }
        AscendingUnique(a[1..], b[1..]);
        assert a == [a[0]] + a[1..] && b == [b[0]] + b[1..];
      }
    }
  }

  lemma TailLacksHead(h: Entries)
    requires Ascending(h) && h != []
    ensures Lookup(h[1..], h[0].0) == None
  {
    LessTotal(h[0].0, h[0].0);
    forall i | 0 <= i < |h[1..]| ensures h[1..][i].0 != h[0].0 {
      assert h[1..][i] == h[i + 1];
    }
    LookupAbsent(h[1..], h[0].0);
  }

  // ---- additional authenticated data ----

  /** Each entry but the tag, as two fields with 32-bit length prefixes. */
  function Fields(h: Entries): (r: seq<byte>) {
    if h == [] then []
    else if h[0].0 == HDR_E2E_TAG then Fields(h[1..])
    else Prefixed(h[0].0, 4) + Prefixed(h[0].1, 4) + Fields(h[1..])
  }

  function Aad(from: Text, to: Text, h: Entries): (r: seq<byte>) {
    Prefixed(AAD_DOMAIN, 4) + Prefixed(from, 4) + Prefixed(to, 4) + Fields(h)
  }

  ghost predicate FieldAt(a: seq<byte>, at: nat, t: Text) {
    at + 4 + |t| <= |a| && a[at..at + 4] == BigEndian(|t|, 4) && a[at + 4..at + 4 + |t|] == t
  }

  /** Where the fields stand: "dkms.e2e.v1", the sender, the receiver, each after its length, then
      the first entry that is not the tag, key before value, and so on. */
  lemma {:induction false} AadLayout(from: Text, to: Text, h: Entries)
    ensures var a := Aad(from, to, h); var m := 23 + |from| + |to|;
            && FieldAt(a, 0, AAD_DOMAIN) && FieldAt(a, 15, from) && FieldAt(a, 19 + |from|, to) && a[m..] == Fields(h)
            && (h != [] && h[0].0 != HDR_E2E_TAG ==>
                  && FieldAt(a, m, h[0].0) && FieldAt(a, m + 4 + |h[0].0|, h[0].1)
                  && a[m + 8 + |h[0].0| + |h[0].1|..] == Fields(h[1..]))
  {
    var a, m := Aad(from, to, h), 23 + |from| + |to|;
    AadGroup(Prefixed(AAD_DOMAIN, 4), Prefixed(from, 4), Prefixed(to, 4), Fields(h));
    assert a[0..] == a;
    PrefixedFront(a, 0, AAD_DOMAIN, 4, Prefixed(from, 4) + (Prefixed(to, 4) + Fields(h)));
    PrefixedFront(a, 15, from, 4, Prefixed(to, 4) + Fields(h));
    PrefixedFront(a, 19 + |from|, to, 4, Fields(h));
    if h != [] && h[0].0 != HDR_E2E_TAG { TwoFieldsAt(a, m, h[0].0, h[0].1, Fields(h[1..])); }
  }

  lemma AadGroup(a: seq<byte>, b: seq<byte>, c: seq<byte>, d: seq<byte>)
    ensures a + b + c + d == a + (b + (c + d))
  {
  }

  lemma Grouped(a: seq<byte>, b: seq<byte>, c: seq<byte>)
    ensures a + b + c == a + (b + c)
  {
  }

  lemma TwoFieldsAt(a: seq<byte>, m: nat, k: Text, v: Text, rest: seq<byte>)
    requires m <= |a| && a[m..] == Prefixed(k, 4) + Prefixed(v, 4) + rest
    ensures FieldAt(a, m, k) && FieldAt(a, m + 4 + |k|, v) && a[m + 8 + |k| + |v|..] == rest
  {
    Grouped(Prefixed(k, 4), Prefixed(v, 4), rest);
    PrefixedFront(a, m, k, 4, Prefixed(v, 4) + rest);
    PrefixedFront(a, m + 4 + |k|, v, 4, rest);
  }

  ghost predicate Fits(t: Text) { |t| < Pow256(4) }

  ghost predicate EntriesFit(h: Entries) {
    forall i :: 0 <= i < |h| ==> Fits(h[i].0) && Fits(h[i].1)
  }

  lemma {:induction false} FieldsSkipTag(h: Entries)
    ensures Fields(h) == Fields(Remove(h, HDR_E2E_TAG))
  {
    if h != [] {
      FieldsSkipTag(h[1..]);
      var t := Remove(h[1..], HDR_E2E_TAG);
      if h[0].0 == HDR_E2E_TAG {
        assert Remove(h, HDR_E2E_TAG) == t;
      } else {
        assert ([h[0]] + t)[1..] == t;
      }
    }
  }

  ghost predicate Untagged(h: Entries) { EntriesFit(h) && forall i :: 0 <= i < |h| ==> h[i].0 != HDR_E2E_TAG }

  lemma UntaggedRest(h: Entries)
    requires Untagged(h) && h != []
    ensures Untagged(h[1..]) && Fits(h[0].0) && Fits(h[0].1) && h == [h[0]] + h[1..]
    ensures Fields(h) == Prefixed(h[0].0, 4) + Prefixed(h[0].1, 4) + Fields(h[1..])
  {
    assert forall i :: 0 <= i < |h[1..]| ==> h[1..][i] == h[i + 1];
  }

  lemma {:induction false} FieldsInjective(a: Entries, b: Entries)
    requires Untagged(a) && Untagged(b) && Fields(a) == Fields(b)
    ensures a == b
  {
    if a != [] { UntaggedRest(a); }
    if b != [] { UntaggedRest(b); }
    if a != [] && b != [] {
      TwoFieldsSplit(a[0].0, a[0].1, Fields(a[1..]), b[0].0, b[0].1, Fields(b[1..]), 4);
      FieldsInjective(a[1..], b[1..]);
    }
  }

  lemma FieldsDetermine(h: Entries, h': Entries)
    requires EntriesFit(h) && EntriesFit(h') && Fields(h) == Fields(h')
    ensures Remove(h, HDR_E2E_TAG) == Remove(h', HDR_E2E_TAG)
  {
    var r, r' := Remove(h, HDR_E2E_TAG), Remove(h', HDR_E2E_TAG);
    FieldsSkipTag(h);
    FieldsSkipTag(h');
    RemoveAscending(h, HDR_E2E_TAG);
    RemoveAscending(h', HDR_E2E_TAG);
    forall i | 0 <= i < |r| ensures Fits(r[i].0) && Fits(r[i].1) && r[i].0 != HDR_E2E_TAG { assert r[i] in r; }
    forall i | 0 <= i < |r'| ensures Fits(r'[i].0) && Fits(r'[i].1) && r'[i].0 != HDR_E2E_TAG { assert r'[i] in r'; }
    FieldsInjective(r, r');
  }

  /** Equal authenticated data means equal ends and equal entries, the tag apart. */
  lemma AadInjective(f: Text, t: Text, h: Entries, f': Text, t': Text, h': Entries)
    requires Fits(f) && Fits(t) && Fits(f') && Fits(t') && EntriesFit(h) && EntriesFit(h')
    requires Aad(f, t, h) == Aad(f', t', h')
    ensures f == f' && t == t' && Remove(h, HDR_E2E_TAG) == Remove(h', HDR_E2E_TAG)
  {
    DomainSplits(Prefixed(AAD_DOMAIN, 4), f, t, Fields(h), f', t', Fields(h'), 4);
    FieldsDetermine(h, h');
  }

  /** The same entries, except perhaps for the tag. */
  ghost predicate SameUpToTag(a: Entries, b: Entries) {
    forall k :: k != HDR_E2E_TAG ==> Lookup(a, k) == Lookup(b, k)
  }

  lemma {:induction false} CollectFits(h: Entries)
    requires EntriesFit(h)
    ensures EntriesFit(Collect(h))
  {
    if h != [] {
      var p, e := h[..|h| - 1], h[|h| - 1];
      CollectFits(p);
      InsertKeys(Collect(p), e.0, e.1);
      var r := Collect(h);
      forall i | 0 <= i < |r| ensures Fits(r[i].0) && Fits(r[i].1) {
        assert r[i] in r;
        assert r[i] == (e.0, e.1) || r[i] in Collect(p);
      }
    }
  }

  /**
   The authenticated data is canonical and uniquely decodable: what the sender computes
   from its ordered header equals what the receiver rebuilds from the entries of an
   unordered map exactly when the ends and the entries (the tag apart) are the same.
   */
  lemma AadCanonical(f: Text, t: Text, sent: Entries, f': Text, t': Text, received: Entries)
    requires Fits(f) && Fits(t) && Fits(f') && Fits(t') && EntriesFit(sent) && EntriesFit(received)
    requires Ascending(sent) && Distinct(received)
    ensures Aad(f, t, sent) == Aad(f', t', Collect(received)) <==>
            f == f' && t == t' && SameUpToTag(sent, received)
  {
    var got := Collect(received);
    var a, b := Remove(sent, HDR_E2E_TAG), Remove(got, HDR_E2E_TAG);
    CollectFits(received);
    CollectSorts(received, []);
    forall k ensures Lookup(got, k) == Lookup(received, k)
                  && Lookup(a, k) == (if k == HDR_E2E_TAG then None else Lookup(sent, k))
                  && Lookup(b, k) == (if k == HDR_E2E_TAG then None else Lookup(received, k)) {
      CollectSorts(received, k);
      RemoveLookup(sent, HDR_E2E_TAG, k);
      RemoveLookup(got, HDR_E2E_TAG, k);
    }
    if Aad(f, t, sent) == Aad(f', t', got) {
      AadInjective(f, t, sent, f', t', got);
      forall k | k != HDR_E2E_TAG ensures Lookup(sent, k) == Lookup(received, k) {
        assert Lookup(a, k) == Lookup(b, k);
      }
    } else if f == f' && t == t' && SameUpToTag(sent, received) {
      RemoveAscending(sent, HDR_E2E_TAG);
      RemoveAscending(got, HDR_E2E_TAG);
      assert SameMap(a, b);
      AscendingUnique(a, b);
      FieldsSkipTag(sent);
      FieldsSkipTag(got);
    }
  }
}
