/** What an envelope leaves behind and what is acknowledged of it. */
module ExtKeysAcked {
  import opened Wrappers
  import opened Bytes
  import opened Otp
  import opened EncKeysSpec
  import opened ExtKeysSpec

  // ---- one key ----

  ghost predicate FirstPad(q: seq<TKey>, i: nat, id: Text) {
    i < |q| && q[i].id == id && forall j :: 0 <= j < i ==> q[j].id != id
  }

  /** The pad reaches over the value, and what it gives is what the digest was made of. */
  ghost predicate Sound(pad: TKey, k: WireKey) {
    |k.value| <= |pad.bytes| && (k.digest.None? || k.digest.value.of == k.id + Padded(pad.bytes, k.value))
  }

  /** How one key ends, by the pad it names. */
  lemma KeyExactly(s: Store, p: Text, k: WireKey, i: nat)
    requires k.padId.Some? && FirstPad(Dec(s, p), i, k.padId.value)
    ensures var out, pad, full := ReceiveKey(s, p, k).1, Dec(s, p)[i], CountOf(s, p) >= MAX_PENDING_PER_ORIGIN;
            && (out == Refused(PadTooShort) <==> |pad.bytes| < |k.value|)
            && (out == Refused(OriginFull) <==> Sound(pad, k) && full)
            && (out == Acked <==> Sound(pad, k) && !full && k.id !in s.inner)
            && (out == Dropped <==> |k.value| <= |pad.bytes| && (!Sound(pad, k) || (!full && k.id in s.inner)))
  {
    assert Position(Dec(s, p), k.padId.value) == i;
  }

  lemma KeyRefused(s: Store, p: Text, k: WireKey)
    ensures ReceiveKey(s, p, k).1 == Refused(MissingPadId) <==> k.padId.None?
    ensures ReceiveKey(s, p, k).1 == Refused(UnknownPad) <==> k.padId.Some? && forall x :: x in Dec(s, p) ==> x.id != k.padId.value
  {
    if k.padId.Some? {
      var q := Dec(s, p);
      var i := Position(q, k.padId.value);
      if i < |q| { assert q[i] in q; }
    }
  }

  /** The entry is what a pad of this peer makes of the wire key. */
  ghost predicate StoredFrom(pads: seq<TKey>, p: Text, k: WireKey, e: Entry) {
    exists x :: x in pads && k.padId == Some(x.id) && Sound(x, k) && e == Entry(Padded(x.bytes, k.value), Some(p))
  }

  /** One key stores itself if it is acknowledged, and nothing otherwise. */
  lemma KeyStores(s: Store, p: Text, k: WireKey)
    ensures var (s', out) := ReceiveKey(s, p, k);
            if out == Acked
            then k.id !in s.inner && k.id in s'.inner && s'.inner == s.inner[k.id := s'.inner[k.id]]
                 && StoredFrom(Dec(s, p), p, k, s'.inner[k.id])
            else s'.inner == s.inner
  {
    if k.padId.Some? {
      var q := Dec(s, p);
      var i := Position(q, k.padId.value);
      if i < |q| { assert q[i] in q && q[i].id == k.padId.value; }
    }
  }

  // ---- an envelope ----

  /** Where in the envelope the acknowledged ids stand. */
  ghost predicate InOrder(keys: seq<WireKey>, acks: seq<Text>, at: seq<nat>) {
    && |at| == |acks|
    && (forall i :: 0 <= i < |at| ==> at[i] < |keys| && keys[at[i]].id == acks[i])
    && (forall i, j :: 0 <= i < j < |at| ==> at[i] < at[j])
  }

  ghost predicate NoneTwice(acks: seq<Text>) { forall i, j :: 0 <= i < j < |acks| ==> acks[i] != acks[j] }

  /** Acknowledged are the ids that were absent and are there now, from this peer; what was there
      is as it was. */
  ghost predicate AckedAre(before: map<Text, Entry>, after: map<Text, Entry>, p: Text, acks: seq<Text>) {
    && (forall id :: id in acks <==> id !in before && id in after && after[id].origin == Some(p))
    && (forall id :: id in after <==> id in before || id in acks)
    && (forall id :: id in before ==> id in after && after[id] == before[id])
  }

  ghost predicate AllStoredFrom(pads: seq<TKey>, p: Text, keys: seq<WireKey>, acks: seq<Text>, at: seq<nat>, after: map<Text, Entry>)
    requires InOrder(keys, acks, at)
  {
    forall i :: 0 <= i < |acks| ==> acks[i] in after && StoredFrom(pads, p, keys[at[i]], after[acks[i]])
  }

  lemma AckedMore(before: map<Text, Entry>, mid: map<Text, Entry>, p: Text, acks: seq<Text>, id: Text, e: Entry)
    requires AckedAre(before, mid, p, acks) && NoneTwice(acks) && id !in mid && e.origin == Some(p)
    ensures AckedAre(before, mid[id := e], p, acks + [id]) && NoneTwice(acks + [id])
  {
    var acks' := acks + [id];
    assert id in acks' && id !in acks && id !in before by { assert acks'[|acks|] == id; }
    forall x ensures x in acks' <==> x in acks || x == id { }
  }

  lemma OrderStays(keys: seq<WireKey>, acks: seq<Text>, at: seq<nat>)
    requires keys != [] && InOrder(keys[..|keys| - 1], acks, at)
    ensures InOrder(keys, acks, at)
  {
  }

  lemma OrderMore(keys: seq<WireKey>, acks: seq<Text>, at: seq<nat>)
    requires keys != [] && InOrder(keys[..|keys| - 1], acks, at)
    ensures InOrder(keys, acks + [keys[|keys| - 1].id], at + [|keys| - 1])
  {
  }

  lemma {:induction false} PadsShrink(s: Store, p: Text, keys: seq<WireKey>, x: TKey)
    requires x in Dec(Receive(s, p, keys).0, p)
    ensures x in Dec(s, p)
  {
    if keys != [] {
      var (s1, bad, _) := Receive(s, p, keys[..|keys| - 1]);
      if bad.None? { ReceiveKeyDec(s1, p, keys[|keys| - 1], p); }
      PadsShrink(s, p, keys[..|keys| - 1], x);
    }
  }

  lemma StoredEarlier(s: Store, p: Text, keys: seq<WireKey>, k: WireKey, e: Entry)
    requires StoredFrom(Dec(Receive(s, p, keys).0, p), p, k, e)
    ensures StoredFrom(Dec(s, p), p, k, e)
  {
    var x :| x in Dec(Receive(s, p, keys).0, p) && k.padId == Some(x.id) && Sound(x, k) && e == Entry(Padded(x.bytes, k.value), Some(p));
    PadsShrink(s, p, keys, x);
  }

  ghost predicate Settled(s: Store, p: Text, keys: seq<WireKey>, at: seq<nat>) {
    var (s', _, acks) := Receive(s, p, keys);
    && InOrder(keys, acks, at) && NoneTwice(acks) && AckedAre(s.inner, s'.inner, p, acks)
    && AllStoredFrom(Dec(s, p), p, keys, acks, at, s'.inner)
  }

  lemma StoredMore(pads: seq<TKey>, p: Text, keys: seq<WireKey>, acks: seq<Text>, at: seq<nat>, mid: map<Text, Entry>, e: Entry)
    requires keys != [] && InOrder(keys[..|keys| - 1], acks, at) && AllStoredFrom(pads, p, keys[..|keys| - 1], acks, at, mid)
    requires keys[|keys| - 1].id !in mid && StoredFrom(pads, p, keys[|keys| - 1], e)
    ensures InOrder(keys, acks + [keys[|keys| - 1].id], at + [|keys| - 1])
    ensures AllStoredFrom(pads, p, keys, acks + [keys[|keys| - 1].id], at + [|keys| - 1], mid[keys[|keys| - 1].id := e])
  {
    var n := |keys| - 1;
    OrderMore(keys, acks, at);
    forall i | 0 <= i < |acks| ensures acks[i] in mid && acks[i] != keys[n].id && StoredFrom(pads, p, keys[at[i]], mid[acks[i]]) {
      assert keys[..n][at[i]] == keys[at[i]];
    }
  }

  lemma {:induction false} ReceiveAcked(s: Store, p: Text, keys: seq<WireKey>, e: Entry)
    requires keys != [] && Receive(s, p, keys[..|keys| - 1]).1.None?
    requires var r := ReceiveKey(Receive(s, p, keys[..|keys| - 1]).0, p, keys[|keys| - 1]);
             r.1 == Acked && keys[|keys| - 1].id in r.0.inner && e == r.0.inner[keys[|keys| - 1].id]
    ensures var (s1, _, acks) := Receive(s, p, keys[..|keys| - 1]); var id := keys[|keys| - 1].id;
            && id !in s1.inner && StoredFrom(Dec(s, p), p, keys[|keys| - 1], e)
            && Receive(s, p, keys).0.inner == s1.inner[id := e] && Receive(s, p, keys).2 == acks + [id]
  {
    var n := |keys| - 1;
    KeyStores(Receive(s, p, keys[..n]).0, p, keys[n]);
    StoredEarlier(s, p, keys[..n], keys[n], e);
  }

  lemma {:induction false} SettledAcked(s: Store, p: Text, keys: seq<WireKey>, at: seq<nat>)
    requires keys != [] && Settled(s, p, keys[..|keys| - 1], at) && Receive(s, p, keys[..|keys| - 1]).1.None?
    requires ReceiveKey(Receive(s, p, keys[..|keys| - 1]).0, p, keys[|keys| - 1]).1 == Acked
    ensures Settled(s, p, keys, at + [|keys| - 1])
  {
    var n := |keys| - 1;
    var (s1, _, acks) := Receive(s, p, keys[..n]);
    KeyStores(s1, p, keys[n]);
    var e := ReceiveKey(s1, p, keys[n]).0.inner[keys[n].id];
    ReceiveAcked(s, p, keys, e);
    AckedMore(s.inner, s1.inner, p, acks, keys[n].id, e);
    StoredMore(Dec(s, p), p, keys, acks, at, s1.inner, e);
  }

  lemma SettledOtherwise(s: Store, p: Text, keys: seq<WireKey>, at: seq<nat>)
    requires keys != [] && Settled(s, p, keys[..|keys| - 1], at)
    requires Receive(s, p, keys[..|keys| - 1]).1.None? ==>
               ReceiveKey(Receive(s, p, keys[..|keys| - 1]).0, p, keys[|keys| - 1]).1 != Acked
    ensures Settled(s, p, keys, at)
  {
    var n := |keys| - 1;
    var (s1, bad, acks) := Receive(s, p, keys[..n]);
    if bad.None? { KeyStores(s1, p, keys[n]); }
    OrderStays(keys, acks, at);
    assert forall i :: 0 <= i < |acks| ==> keys[..n][at[i]] == keys[at[i]];
  }

  /**
   For every store, peer and envelope: an id is acknowledged exactly if it was absent before and
   is there afterwards with this peer as its origin; each is an id of the envelope, in its order
   and none twice; stored under it is what a pad of this peer made of the wire key; and every
   other key of the envelope left the stored keys as they were.
   */
  lemma {:induction false} AckedExactly(s: Store, p: Text, keys: seq<WireKey>) returns (at: seq<nat>)
    ensures Settled(s, p, keys, at)
  {
    if keys == [] {
      at := [];
    } else {
      var n := |keys| - 1;
      at := AckedExactly(s, p, keys[..n]);
      var (s1, bad, acks) := Receive(s, p, keys[..n]);
      if bad.None? && ReceiveKey(s1, p, keys[n]).1 == Acked {
        SettledAcked(s, p, keys, at);
        at := at + [n];
      } else {
        SettledOtherwise(s, p, keys, at);
      }
    }
  }

  /** A refusal is that of the first key that is refused; what came before it stays, and what
      comes after it is not looked at. */
  lemma {:induction false} FirstRefusal(s: Store, p: Text, keys: seq<WireKey>) returns (n: nat)
    requires Receive(s, p, keys).1.Some?
    ensures n < |keys| && Receive(s, p, keys[..n]).1.None?
    ensures var (s1, _, acks) := Receive(s, p, keys[..n]); var (s', out) := ReceiveKey(s1, p, keys[n]);
            out == Refused(Receive(s, p, keys).1.value) && Receive(s, p, keys).0 == s' && Receive(s, p, keys).2 == acks
  {
    n := |keys| - 1;
    if Receive(s, p, keys[..n]).1.Some? {
      var m := FirstRefusal(s, p, keys[..n]);
      assert keys[..n][..m] == keys[..m];
      n := m;
    }
  }
}
