/**
 How the operations of the end-to-end layer end, on any state: which error a caller sees, on
 two of which it asks for an agreement, and how often agreements are started and answered.
 */
module E2eOutcomes {
  import opened Wrappers
  import opened Bytes
  import opened Numerals
  import opened Symbolic
  import opened Headers
  import opened ReplaySpec
  import opened E2eSpec
  import opened E2eProtocol
  import opened E2eInvariant
  import opened E2eFrames
  import opened Widths

  // ---- sealing and opening ----

  ghost predicate Kept(epochs: Epochs, e: nat) { exists i :: 0 <= i < |epochs| && epochs[i].0 == e }

  lemma HoldsKept(epochs: Epochs, e: nat)
    ensures Holds(epochs, e) <==> Kept(epochs, e)
  {
    SecretForMember(epochs, e);
  }

  /** Sealing fails for want of an epoch exactly if there is none to send with, then for a key id
      used lately; otherwise it takes the next counter. */
  lemma SealExactly(v: PeerView, me: Text, peer: Text, keyId: Text, header: Entries, plain: Text)
    ensures var (v', r) := Seal(v, me, peer, keyId, header, plain);
            var ready := v.sendEpoch.Some? && Kept(v.epochs, v.sendEpoch.value);
            && (r == Err(NoEpoch) <==> !ready)
            && (r == Err(KeyIdReuse) <==> ready && keyId in v.recent)
            && (r.Ok? <==> ready && keyId !in v.recent)
            && (r.Err? ==> v' == v)
            && (r.Ok? ==> v'.counter == v.counter + 1 && v'.epochSends == v.epochSends + 1)
  {
    if v.sendEpoch.Some? { HoldsKept(v.epochs, v.sendEpoch.value); }
  }

  /** Over every run an end cannot seal for want of an epoch exactly if its process has not
      stored one yet. */
  lemma NoEpochExactly(net: Net, steps: seq<Step>, x: Side, keyId: Text, header: Entries, plain: Text)
    requires net.WellFormed()
    ensures var e := Run(net, steps).At(x);
            Seal(e.view, net.Id(x), net.Id(Other(x)), keyId, header, plain).1 == Err(NoEpoch) <==> e.hist == []
  {
    var s := Run(net, steps);
    RunKeepsInv(net, steps);
    assert SideInv(net, s, x);
    if s.At(x).hist != [] { SendsNewest(net, s, x); }
  }

  /** Two frames share a key, and with it a nonce, only if they share the secret and the key id. */
  lemma KeysApart(s: Secret, k: Text, s': Secret, k': Text)
    ensures DeriveKey(s, k) == DeriveKey(s', k') <==> s == s' && k == k'
  {
    if k + AAD_DOMAIN == k' + AAD_DOMAIN {
      assert k == (k + AAD_DOMAIN)[..|k|] && k' == (k' + AAD_DOMAIN)[..|k'|] && |k| == |k'|;
    }
  }

  /** What is sealed: the text under that key, and of the header all but the tag, with the epoch
      and the counter of this frame. */
  lemma SealedIs(v: PeerView, me: Text, peer: Text, keyId: Text, header: Entries, plain: Text)
    requires Seal(v, me, peer, keyId, header, plain).1.Ok? && Ascending(header) && v.sendEpoch.value < U32 && v.counter + 1 < U64
    ensures var r := Seal(v, me, peer, keyId, header, plain).1.value; var e := v.sendEpoch.value;
            && Holds(v.epochs, e) && r.ct.plain == plain && r.ct.key == DeriveKey(SecretFor(v.epochs, e).value, keyId)
            && NumberField(r.header, HDR_E2E_EPOCH, 10, U32) == Some(e) && NumberField(r.header, HDR_E2E_CTR, 10, U64) == Some(v.counter + 1)
            && Lookup(r.header, HDR_E2E_TAG) == None
            && forall k :: k != HDR_E2E_EPOCH && k != HDR_E2E_CTR && k != HDR_E2E_TAG ==> Lookup(r.header, k) == Lookup(header, k)
  {
    var e := v.sendEpoch.value;
    SealedLookups(header, e, v.counter + 1);
    ParseWritten(e, U32);
    ParseWritten(v.counter + 1, U64);
  }

  lemma SealedLookups(header: Entries, e: nat, c: nat)
    requires Ascending(header)
    ensures var h := SealedHeader(header, e, c);
            && Lookup(h, HDR_E2E_EPOCH) == Some(ToDecimal(e)) && Lookup(h, HDR_E2E_CTR) == Some(ToDecimal(c)) && Lookup(h, HDR_E2E_TAG) == None
            && forall k :: k != HDR_E2E_EPOCH && k != HDR_E2E_CTR && k != HDR_E2E_TAG ==> Lookup(h, k) == Lookup(header, k)
  {
    var h1 := Insert(header, HDR_E2E_EPOCH, ToDecimal(e));
    var h2 := Insert(h1, HDR_E2E_CTR, ToDecimal(c));
    assert HDR_E2E_EPOCH[4] != HDR_E2E_TAG[4] && HDR_E2E_CTR[4] != HDR_E2E_TAG[4] && HDR_E2E_EPOCH[4] != HDR_E2E_CTR[4];
    InsertAscending(header, HDR_E2E_EPOCH, ToDecimal(e));
    forall k ensures Lookup(Remove(h2, HDR_E2E_TAG), k) ==
                     if k == HDR_E2E_TAG then None else if k == HDR_E2E_CTR then Some(ToDecimal(c))
                     else if k == HDR_E2E_EPOCH then Some(ToDecimal(e)) else Lookup(header, k)
    {
      InsertLookup(header, HDR_E2E_EPOCH, ToDecimal(e), k);
      InsertLookup(h1, HDR_E2E_CTR, ToDecimal(c), k);
      RemoveLookup(h2, HDR_E2E_TAG, k);
    }
  }

  /** The fields of the frame that opening reads. */
  ghost predicate Readable(header: Entries, tag: Option<E2eTag>) {
    && NumberField(header, HDR_E2E_EPOCH, 10, U32).Some? && NumberField(header, HDR_E2E_CTR, 10, U64).Some?
    && NumberField(header, HDR_INCARNATION, 16, U64).Some? && tag.Some?
  }

  /** A frame that cannot be read is a bad header; one that can is of an unknown epoch exactly if
      this end does not hold its epoch. Neither changes anything. */
  lemma UnknownEpochExactly(v: PeerView, me: Text, source: Text, header: Entries, tag: Option<E2eTag>, keyId: Text, ct: E2eCipher)
    ensures var (v', r) := Open(v, me, source, header, tag, keyId, ct);
            && (r == Err(BadHeader) <==> !Readable(header, tag))
            && (Readable(header, tag) ==>
                  (r == Err(UnknownEpoch) <==> !Kept(v.epochs, NumberField(header, HDR_E2E_EPOCH, 10, U32).value)))
            && (r == Err(BadHeader) || r == Err(UnknownEpoch) || r == Err(BadTag) ==> v' == v)
  {
    var epoch := NumberField(header, HDR_E2E_EPOCH, 10, U32);
    if epoch.Some? { HoldsKept(v.epochs, epoch.value); }
  }

  /** One of an epoch it holds has a bad tag exactly if it is not, under that epoch's secret, what
      its tag was computed for; otherwise the window decides, and remembers. */
  lemma OpensExactly(v: PeerView, me: Text, source: Text, header: Entries, tag: Option<E2eTag>, keyId: Text, ct: E2eCipher)
    requires Readable(header, tag) && Holds(v.epochs, NumberField(header, HDR_E2E_EPOCH, 10, U32).value)
    ensures var (v', r) := Open(v, me, source, header, tag, keyId, ct);
            var secret := SecretFor(v.epochs, NumberField(header, HDR_E2E_EPOCH, 10, U32).value).value;
            var s, c := NumberField(header, HDR_INCARNATION, 16, U64).value, NumberField(header, HDR_E2E_CTR, 10, U64).value;
            var genuine := (ct, tag.value) == SealDetached(DeriveKey(secret, keyId), Derived(DeriveKey(secret, keyId)), ct.plain,
                                                           Aad(source, me, Collect(header)));
            && (r == Err(BadTag) <==> !genuine)
            && (genuine ==> v' == v.(replay := CheckAndSet(v.replay, s, c).0)
                            && r == match CheckAndSet(v.replay, s, c).1 case None => Ok(ct.plain) case Some(e) => Err(Replay(e)))
  {
  }

  /** A peer that is not known yet has no epoch and a window of at least 64 counters. */
  lemma NewPeerIs(cfg: Cfg)
    ensures var v := NewPeer(cfg);
            && v.epochs == [] && v.sendEpoch == None && v.counter == 0 && v.pending == None && !v.inflight && v.recent == []
            && v.replay.width >= 64 && v.replay.width >= cfg.replayWindow && (cfg.replayWindow >= 64 ==> v.replay.width == cfg.replayWindow)
            && (forall s: nat, c: nat :: c > 0 ==> Accepts(v.replay, s, c)) && MayStart(v, 0) && Admitted(v, cfg, 0).Some?
  {
  }

  // ---- storing ----

  lemma {:induction false} RetainIs(q: Epochs, e: nat)
    ensures forall x :: x in Retain(q, e) <==> x in q && x.0 != e
    ensures DistinctEpochs(q) ==> DistinctEpochs(Retain(q, e))
  {
    if q != [] {
      RetainIs(q[1..], e);
      assert q == [q[0]] + q[1..];
      if DistinctEpochs(q) {
        forall i, j | 0 <= i < j < |q[1..]| ensures q[1..][i].0 != q[1..][j].0 { assert q[1..][i] == q[i + 1] && q[1..][j] == q[j + 1]; }
        DistinctHead(q[0], q[1..], Retain(q[1..], e));
      }
    }
  }

  lemma DistinctHead(x: (nat, Secret), rest: Epochs, kept: Epochs)
    requires DistinctEpochs([x] + rest) && DistinctEpochs(kept) && forall y :: y in kept ==> y in rest
    ensures DistinctEpochs([x] + kept)
  {
    forall j | 0 <= j < |kept| ensures kept[j].0 != x.0 {
      assert kept[j] in kept;
      var i :| 0 <= i < |rest| && rest[i] == kept[j];
      assert ([x] + rest)[i + 1] == kept[j] && ([x] + rest)[0] == x;
    }
  }

  /** The newest entries of a list with a new last one. */
  ghost predicate NewestOf(r: Epochs, q: Epochs, x: (nat, Secret), n: nat) {
    && 0 < |r| <= n && r[|r| - 1] == x
    && (forall i :: 0 <= i < |r| - 1 ==> r[i] in q)
    && (|q| < n ==> forall y :: y in q ==> y in r)
  }

  lemma NewestIs(q: Epochs, x: (nat, Secret), n: nat)
    requires n > 0
    ensures NewestOf(Newest(q + [x], n), q, x, n)
    ensures DistinctEpochs(q) && (forall y :: y in q ==> y.0 != x.0) ==> DistinctEpochs(Newest(q + [x], n))
  {
    var all := q + [x];
    var r := Newest(all, n);
    var m := |all| - |r|;
    assert forall i :: 0 <= i < |r| ==> r[i] == all[m + i];
    forall i | 0 <= i < |r| - 1 ensures r[i] in q { assert r[i] == q[m + i]; }
    if |q| < n { forall y | y in q ensures y in r { } }
    if DistinctEpochs(q) && (forall y :: y in q ==> y.0 != x.0) {
      assert forall i :: 0 <= i < |q| ==> q[i] in q;
      assert DistinctEpochs(all);
    }
  }

  /** The stored epoch is the newest and the one to send with, at most `keep` and at least one
      are held, none twice, and the others are those held before. */
  lemma StoredExactly(v: PeerView, e: nat, s: Secret, keep: nat)
    ensures var v' := Stored(v, e, s, keep);
            && NewestOf(v'.epochs, Retain(v.epochs, e), (e, s), if keep == 0 then 1 else keep)
            && (forall x :: x in Retain(v.epochs, e) <==> x in v.epochs && x.0 != e)
            && (DistinctEpochs(v.epochs) ==> DistinctEpochs(v'.epochs))
            && v'.sendEpoch == Some(e) && v'.epochSends == 0 && v'.recent == []
            && v'.counter == v.counter && v'.replay == v.replay && v'.pending == v.pending
  {
    RetainIs(v.epochs, e);
    NewestIs(Retain(v.epochs, e), (e, s), Max(keep, 1));
  }

  /** An answer is taken up exactly if it names an epoch, the local suite and a ciphertext, and
      the key pair it is for was made no more than 30 seconds ago. The pair is used up by any
      answer that is well formed; nothing else changes otherwise. */
  lemma CompletesExactly(v: PeerView, cfg: Cfg, resp: KemResponse, now: nat)
    ensures var (v', r) := Complete(v, cfg, resp, now);
            var proper := resp.epoch != 0 && resp.suite == cfg.suite && resp.ct.Some? && v.pending.Some?;
            && (r.Ok? <==> proper && now <= v.pending.value.1 + 30_000)
            && (r.Ok? ==> r.value == resp.epoch && v'.pending == None
                          && v'.epochs != [] && v'.epochs[|v'.epochs| - 1] == (resp.epoch, Decap(v.pending.value.0, resp.ct.value)))
            && (r.Err? ==> v' == if proper then v.(pending := None) else v)
  {
    if resp.ct.Some? && v.pending.Some? {
      StoredExactly(v.(pending := None), resp.epoch, Decap(v.pending.value.0, resp.ct.value), cfg.keep);
    }
  }

  // ---- how often ----

  datatype Event = Try(now: nat) | Finished(failed: bool)

  /** What `request_agreement` and the end of its task make of a view, and when it started one. */
  function Requested(v: PeerView, evs: seq<Event>): (PeerView, seq<nat>) {
    if evs == [] then (v, []) else
    var (u, starts) := Requested(v, evs[..|evs| - 1]);
    match evs[|evs| - 1]
    case Try(now) => if MayStart(u, now) then (Started(u, now), starts + [now]) else (u, starts)
    case Finished(failed) => (Ended(u, failed), starts)
  }

  function Finishes(evs: seq<Event>): nat {
    if evs == [] then 0 else Finishes(evs[..|evs| - 1]) + if evs[|evs| - 1].Finished? then 1 else 0
  }

  /** Over every run of attempts: any two agreements start at least 2 seconds apart, none while
      one is in flight, and the last one's time is remembered. */
  lemma {:induction false} StartsApart(v: PeerView, evs: seq<Event>)
    requires !v.inflight && v.lastAttempt.None?
    ensures var (u, starts) := Requested(v, evs);
            && (forall i, j :: 0 <= i < j < |starts| ==> starts[j] >= starts[i] + 2_000)
            && |starts| <= Finishes(evs) + (if u.inflight then 1 else 0)
            && u.lastAttempt == if starts == [] then None else Some(starts[|starts| - 1])
  {
    if evs != [] { StartsApart(v, evs[..|evs| - 1]); }
  }

  /** An attempt goes through if none is in flight and the last one is 2 seconds ago. */
  lemma StartsWhenDue(v: PeerView, now: nat)
    requires !v.inflight && (v.lastAttempt.None? || now >= v.lastAttempt.value + 2_000)
    ensures MayStart(v, now) && Started(v, now).inflight && Ended(Started(v, now), true).pending == None
  {
  }

  /** How many of the requests at these times are admitted, one after the other. */
  function Admissions(v: PeerView, cfg: Cfg, times: seq<nat>): (PeerView, nat) {
    if times == [] then (v, 0) else
    var (u, n) := Admissions(v, cfg, times[..|times| - 1]);
    match Admitted(u, cfg, times[|times| - 1])
    case None => (u, n)
    case Some(w) => (w, n + 1)
  }

  function AtMost(a: nat, b: nat): nat { if a < b then a else b }

  /** Within 2 seconds of a response, as many more are given as the burst allows and no more. */
  lemma {:induction false} BurstExactly(v: PeerView, cfg: Cfg, t: nat, times: seq<nat>)
    requires v.lastResponse == Some(t) && forall i :: 0 <= i < |times| ==> times[i] < t + 2_000
    ensures var (u, n) := Admissions(v, cfg, times);
            n == AtMost(|times|, v.respondBurst) && u == v.(respondBurst := v.respondBurst - n)
  {
    if times != [] { BurstExactly(v, cfg, t, times[..|times| - 1]); }
  }

  /** The first response, or the first after 2 seconds, is given and starts a new burst: in all
      at most `respondBurst` of them, and at least one, within 2 seconds of it. */
  lemma BurstBegins(v: PeerView, cfg: Cfg, now: nat, times: seq<nat>)
    requires v.lastResponse.None? || now >= v.lastResponse.value + 2_000
    requires forall i :: 0 <= i < |times| ==> times[i] < now + 2_000
    ensures var w := Admitted(v, cfg, now);
            && w.Some? && w.value == v.(lastResponse := Some(now), respondBurst := w.value.respondBurst)
            && 1 + Admissions(w.value, cfg, times).1 == AtMost(1 + |times|, if cfg.respondBurst == 0 then 1 else cfg.respondBurst)
  {
    var w := Admitted(v, cfg, now);
    BurstExactly(w.value, cfg, now, times);
  }
}
