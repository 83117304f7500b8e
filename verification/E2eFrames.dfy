/** Sealing and opening keep the protocol invariant, so every run does. */
module E2eFrames {
  import opened Wrappers
  import opened Bytes
  import opened Numerals
  import opened Symbolic
  import opened Headers
  import opened ReplaySpec
  import opened E2eSpec
  import opened E2eProtocol
  import opened E2eInvariant
  import opened Widths

  // ---- sealing ----

  lemma NewestIn<T>(q: seq<T>, n: nat, i: nat)
    requires i < |q| && |q| <= i + n
    ensures |Newest(q, n)| + i >= |q| && Newest(q, n)[|Newest(q, n)| - |q| + i] == q[i]
  {
  }

  lemma NewestDistinct(q: Epochs, n: nat)
    requires DistinctEpochs(q)
    ensures DistinctEpochs(Newest(q, n))
  {
  }

  /** The secret of an epoch that is still within the bound is the one it was stored with. */
  lemma HeldSecret(net: Net, s: Sys, x: Side, i: nat)
    requires EndInv(net, s, x)
    requires i < |s.At(x).hist| <= i + Max(net.CfgOf(x).keep, 1)
    ensures SecretFor(s.At(x).view.epochs, s.At(x).hist[i].0) == Some(s.At(x).hist[i].1)
  {
    var q, n := s.At(x).hist, Max(net.CfgOf(x).keep, 1);
    NewestIn(q, n, i);
    NewestDistinct(q, n);
    SecretForAt(Newest(q, n), |Newest(q, n)| - |q| + i);
  }

  /** A secret found for an epoch is one this process stored, with an index within the bound. */
  lemma FoundSecret(net: Net, s: Sys, x: Side, epoch: nat) returns (i: nat)
    requires EndInv(net, s, x) && SecretFor(s.At(x).view.epochs, epoch).Some?
    ensures i < |s.At(x).hist| <= i + Max(net.CfgOf(x).keep, 1)
    ensures s.At(x).hist[i] == (epoch, SecretFor(s.At(x).view.epochs, epoch).value)
    ensures IndexOf(s.At(x).hist, epoch) == i
  {
    var q, n := s.At(x).hist, Max(net.CfgOf(x).keep, 1);
    SecretForMember(Newest(q, n), epoch);
    var j :| 0 <= j < |Newest(q, n)| && Newest(q, n)[j] == (epoch, SecretFor(Newest(q, n), epoch).value);
    i := |q| - |Newest(q, n)| + j;
    IndexOfAt(q, i);
  }

  /** The header that goes out names its epoch, counter and process. */
  lemma SealedHeaderNames(h: Entries, epoch: nat, counter: nat)
    requires Ascending(h) && epoch < U32 && counter < U64
    ensures var g := SealedHeader(h, epoch, counter);
            && Ascending(g)
            && NumberField(g, HDR_E2E_EPOCH, 10, U32) == Some(epoch)
            && NumberField(g, HDR_E2E_CTR, 10, U64) == Some(counter)
            && NumberField(g, HDR_INCARNATION, 16, U64) == NumberField(h, HDR_INCARNATION, 16, U64)
  {
    var a := Insert(h, HDR_E2E_EPOCH, ToDecimal(epoch));
    var b := Insert(a, HDR_E2E_CTR, ToDecimal(counter));
    InsertAscending(h, HDR_E2E_EPOCH, ToDecimal(epoch));
    InsertAscending(a, HDR_E2E_CTR, ToDecimal(counter));
    RemoveAscending(b, HDR_E2E_TAG);
    ParseWritten(epoch, U32);
    ParseWritten(counter, U64);
    assert HDR_E2E_EPOCH[4] != HDR_E2E_CTR[4] && HDR_E2E_EPOCH[4] != HDR_E2E_TAG[4] && HDR_E2E_CTR[4] != HDR_E2E_TAG[4];
    assert HDR_INCARNATION[0] != HDR_E2E_EPOCH[0] && HDR_INCARNATION[0] != HDR_E2E_CTR[0] && HDR_INCARNATION[0] != HDR_E2E_TAG[0];
    forall k | k == HDR_E2E_EPOCH || k == HDR_E2E_CTR || k == HDR_INCARNATION
      ensures Lookup(SealedHeader(h, epoch, counter), k) ==
              (if k == HDR_E2E_CTR then Some(ToDecimal(counter))
               else if k == HDR_E2E_EPOCH then Some(ToDecimal(epoch)) else Lookup(h, k))
    {
      InsertLookup(h, HDR_E2E_EPOCH, ToDecimal(epoch), k);
      InsertLookup(a, HDR_E2E_CTR, ToDecimal(counter), k);
      RemoveLookup(b, HDR_E2E_TAG, k);
    }
  }

  /** An end that stored an epoch sends with the newest, under the secret it was stored with. */
  lemma SendsNewest(net: Net, s: Sys, x: Side)
    requires EndInv(net, s, x) && s.At(x).hist != []
    ensures var e := s.At(x); var last := e.hist[|e.hist| - 1];
            e.view.sendEpoch == Some(last.0) && SecretFor(e.view.epochs, last.0) == Some(last.1)
            && Assigned(s, x, e.inc, last)
  {
    HeldSecret(net, s, x, |s.At(x).hist| - 1);
  }

  ghost predicate Seals(net: Net, s: Sys, x: Side, keyId: Text, header: Entries) {
    Sendable(s.At(x), header) && s.At(x).hist != [] && keyId !in s.At(x).view.recent
  }

  /** The frame an emission adds to the log, and the counter it leaves behind. */
  ghost function Sealing(net: Net, s: Sys, x: Side, keyId: Text, header: Entries, plain: Text): Record
    requires s.At(x).hist != []
  {
    var e := s.At(x);
    var (epoch, secret) := e.hist[|e.hist| - 1];
    Record(x, e.inc, e.view.counter + 1, epoch, secret, keyId, plain,
           SealWith(secret, net.Id(x), net.Id(Other(x)), keyId, SealedHeader(header, epoch, e.view.counter + 1), plain))
  }

  ghost predicate Logs(s: Sys, s': Sys, x: Side, r: Record) {
    var e, v := s.At(x), s'.At(x).view;
    && s' == s.With(x, e.(view := v)).(log := s.log + [r])
    && v == e.view.(counter := e.view.counter + 1, epochSends := v.epochSends, recent := v.recent)
  }

  lemma Emitted(net: Net, s: Sys, x: Side, keyId: Text, header: Entries, plain: Text)
    requires EndInv(net, s, x) && Seals(net, s, x, keyId, header)
    ensures Logs(s, EmitStep(net, s, x, keyId, header, plain), x, Sealing(net, s, x, keyId, header, plain))
  {
    SendsNewest(net, s, x);
  }

  /** What is sealed says in its header which epoch, counter and process it belongs to. */
  ghost predicate Names(g: Entries, epoch: nat, counter: nat, inc: nat) {
    && Ascending(g) && EntriesFit(g)
    && NumberField(g, HDR_E2E_EPOCH, 10, U32) == Some(epoch)
    && NumberField(g, HDR_E2E_CTR, 10, U64) == Some(counter)
    && NumberField(g, HDR_INCARNATION, 16, U64) == Some(inc)
  }

  lemma SealedNames(e: End, header: Entries, epoch: nat)
    requires Sendable(e, header) && e.view.sendEpoch == Some(epoch) && epoch < U32
    ensures Names(SealedHeader(header, epoch, e.view.counter + 1), epoch, e.view.counter + 1, e.inc)
  {
    SealedHeaderNames(header, epoch, e.view.counter + 1);
  }

  /** The epoch an end sends with fits its field and was assigned to its process. */
  lemma SendingEpoch(net: Net, s: Sys, x: Side)
    requires EndInv(net, s, x) && BirthInv(s) && s.At(x).hist != []
    ensures var e := s.At(x); var last := e.hist[|e.hist| - 1];
            e.view.sendEpoch == Some(last.0) && last.0 < U32 && Assigned(s, x, e.inc, last) && e.inc < s.nextInc
  {
    SendsNewest(net, s, x);
    assert BirthOk(s, s.At(x).hist[|s.At(x).hist| - 1].0);
  }

  /** `r` is what process `e` of end `x` seals next under its newest epoch. */
  ghost predicate SealedNext(net: Net, x: Side, e: End, r: Record)
    requires e.hist != []
  {
    && r.from == x && r.inc == e.inc && r.counter == e.view.counter + 1
    && (r.epoch, r.secret) == e.hist[|e.hist| - 1]
    && r.sealed == SealWith(r.secret, net.Id(x), net.Id(Other(x)), r.keyId, r.sealed.header, r.plain)
    && Names(r.sealed.header, r.epoch, r.counter, r.inc)
  }

  lemma SealingNext(net: Net, s: Sys, x: Side, keyId: Text, header: Entries, plain: Text)
    requires s.At(x).hist != [] && Sendable(s.At(x), header)
    requires var last := s.At(x).hist[|s.At(x).hist| - 1]; s.At(x).view.sendEpoch == Some(last.0) && last.0 < U32
    ensures SealedNext(net, x, s.At(x), Sealing(net, s, x, keyId, header, plain))
  {
    SealedNames(s.At(x), header, s.At(x).hist[|s.At(x).hist| - 1].0);
  }

  lemma SealedNextInv(net: Net, s: Sys, s': Sys, x: Side, r: Record)
    requires s.At(x).hist != [] && SealedNext(net, x, s.At(x), r) && Logs(s, s', x, r)
    requires s.left.inc != s.right.inc && s.At(x).inc < s.nextInc
    requires Assigned(s, x, s.At(x).inc, s.At(x).hist[|s.At(x).hist| - 1])
    ensures RecordInv(net, s', r)
  {
  }

  lemma SealingInv(net: Net, s: Sys, s': Sys, x: Side, keyId: Text, header: Entries, plain: Text)
    requires EndInv(net, s, x) && BirthInv(s) && s.left.inc != s.right.inc
    requires Seals(net, s, x, keyId, header) && Logs(s, s', x, Sealing(net, s, x, keyId, header, plain))
    ensures RecordInv(net, s', Sealing(net, s, x, keyId, header, plain))
  {
    SendingEpoch(net, s, x);
    SealingNext(net, s, x, keyId, header, plain);
    SealedNextInv(net, s, s', x, Sealing(net, s, x, keyId, header, plain));
  }

  lemma EmitQuiet(net: Net, s: Sys, x: Side, keyId: Text, header: Entries, plain: Text)
    requires Inv(net, s) && !Seals(net, s, x, keyId, header)
    ensures EmitStep(net, s, x, keyId, header, plain) == s
  {
    if s.At(x).hist != [] {
      assert SideInv(net, s, x);
      SendsNewest(net, s, x);
    }
  }

  lemma EmitFrame(s: Sys, s': Sys, x: Side, r: Record)
    requires s.left.inc != s.right.inc && Logs(s, s', x, r)
    ensures Grows(s, s') && SameEnd(s.left, s'.left) && SameEnd(s.right, s'.right)
    ensures ExchangeInv(s, Left) ==> ExchangeInv(s', Left)
    ensures ExchangeInv(s, Right) ==> ExchangeInv(s', Right)
  {
  }

  /** A new counter is above all those sealed by this process. */
  lemma EmitFresh(net: Net, s: Sys, q: Record, r: Record)
    requires RecordInv(net, s, q) && r.inc == s.At(r.from).inc && r.counter > s.At(r.from).view.counter
    ensures q.inc != r.inc || q.counter != r.counter
  {
    assert q.from == r.from || q.from == Other(r.from);
  }

  lemma EmitLog(net: Net, s: Sys, s': Sys, r: Record)
    requires LogInv(net, s) && Grows(s, s') && s'.log == s.log + [r] && RecordInv(net, s', r)
    requires r.inc == s.At(r.from).inc && r.counter > s.At(r.from).view.counter
    ensures LogInv(net, s')
  {
    forall i | 0 <= i < |s.log|
      ensures RecordInv(net, s', s.log[i]) && (s.log[i].inc != r.inc || s.log[i].counter != r.counter)
    {
      RecordSurvives(net, s, s', s.log[i]);
      EmitFresh(net, s, s.log[i], r);
    }
    assert forall i :: 0 <= i < |s'.log| ==> s'.log[i] == if i < |s.log| then s.log[i] else r;
  }

  lemma EmitKeepsInv(net: Net, s: Sys, x: Side, keyId: Text, header: Entries, plain: Text)
    requires Inv(net, s)
    ensures Inv(net, EmitStep(net, s, x, keyId, header, plain))
  {
    if !Seals(net, s, x, keyId, header) {
      EmitQuiet(net, s, x, keyId, header, plain);
    } else {
      var s', r := EmitStep(net, s, x, keyId, header, plain), Sealing(net, s, x, keyId, header, plain);
      assert SideInv(net, s, x);
      Emitted(net, s, x, keyId, header, plain);
      SealingInv(net, s, s', x, keyId, header, plain);
      EmitFrame(s, s', x, r);
      EmitLog(net, s, s', r);
      EmitRest(net, s, s');
    }
  }

  lemma EmitRest(net: Net, s: Sys, s': Sys)
    requires Inv(net, s) && Grows(s, s') && SameEnd(s.left, s'.left) && SameEnd(s.right, s'.right)
    requires s'.births == s.births && s'.openings == s.openings && s'.stray == s.stray && LogInv(net, s')
    requires ExchangeInv(s', Left) && ExchangeInv(s', Right)
    ensures Inv(net, s')
  {
    SameEndSurvives(net, s, s', Left);
    SameEndSurvives(net, s, s', Right);
    WindowSurvives(net, s, s', Left);
    WindowSurvives(net, s, s', Right);
    BirthsKept(s, s');
    forall k | 0 <= k < |s'.openings| ensures OpeningInv(s', s'.openings[k]) { OpeningSurvives(s, s', s.openings[k]); }
  }

  // ---- opening ----

  /** The header is complete, the epoch is held and the tag verifies under it. */
  ghost predicate Verifies(net: Net, s: Sys, x: Side, f: Frame) {
    && f.Complete()
    && var secret := SecretFor(s.At(x).view.epochs, f.Epoch().value);
       && secret.Some?
       && var okm := DeriveKey(secret.value, f.keyId);
          OpenDetached(okm, Derived(okm), f.ct, f.tag.value, Aad(net.Id(Other(x)), net.Id(x), Collect(f.header))).Some?
  }

  /** `r` is the frame that was sealed for what `f` presents to `x`. */
  ghost predicate Presents(s: Sys, x: Side, f: Frame, r: Record)
    requires f.Complete()
  {
    && r.from == Other(x) && f.tag.value == r.sealed.tag && r.plain == f.ct.plain && r.keyId == f.keyId
    && r.epoch == f.Epoch().value && r.counter == f.Counter().value && r.inc == f.SessionId().value
    && SecretFor(s.At(x).view.epochs, r.epoch) == Some(r.secret)
  }

  lemma SameNumbers(a: Entries, b: Entries, name: Text, radix: nat, bound: nat)
    requires SameUpToTag(a, b) && name != HDR_E2E_TAG
    ensures NumberField(a, name, radix, bound) == NumberField(b, name, radix, bound)
  {
  }

  lemma InfoInjective(a: Text, b: Text)
    requires a + AAD_DOMAIN == b + AAD_DOMAIN
    ensures a == b
  {
    var n := |AAD_DOMAIN|;
    assert a == (a + AAD_DOMAIN)[..|a + AAD_DOMAIN| - n];
    assert b == (b + AAD_DOMAIN)[..|b + AAD_DOMAIN| - n];
  }

  /** Authenticity of one frame: a verifying tag was made by the other end for just this. */
  lemma Authentic(net: Net, s: Sys, x: Side, f: Frame, r: Record)
    requires net.WellFormed() && RecordInv(net, s, r) && Distinct(f.header) && EntriesFit(f.header)
    requires Verifies(net, s, x, f) && r.sealed.tag == f.tag.value
    ensures Presents(s, x, f, r)
  {
    var secret := SecretFor(s.At(x).view.epochs, f.Epoch().value).value;
    var okm := DeriveKey(secret, f.keyId);
    var me, peer := net.Id(x), net.Id(Other(x));
    assert f.tag.value == Tag(okm, Derived(okm), Aad(peer, me, Collect(f.header)), f.ct.plain);
    assert DeriveKey(r.secret, r.keyId) == okm && r.secret == secret && r.plain == f.ct.plain;
    InfoInjective(r.keyId, f.keyId);
    AadCanonical(net.Id(r.from), net.Id(Other(r.from)), r.sealed.header, peer, me, f.header);
    assert HDR_E2E_EPOCH[4] != HDR_E2E_TAG[4] && HDR_E2E_CTR[4] != HDR_E2E_TAG[4] && HDR_INCARNATION[0] != HDR_E2E_TAG[0];
    SameNumbers(r.sealed.header, f.header, HDR_E2E_EPOCH, 10, U32);
    SameNumbers(r.sealed.header, f.header, HDR_E2E_CTR, 10, U64);
    SameNumbers(r.sealed.header, f.header, HDR_INCARNATION, 16, U64);
  }

  lemma Origin(net: Net, s: Sys, x: Side, f: Frame) returns (i: nat)
    requires net.WellFormed() && LogInv(net, s) && Presentable(s, f) && Verifies(net, s, x, f)
    ensures i < |s.log| && Presents(s, x, f, s.log[i])
  {
    i :| 0 <= i < |s.log| && s.log[i].sealed.tag == f.tag.value;
    Authentic(net, s, x, f, s.log[i]);
  }

  /** A frame that does not verify changes nothing. */
  lemma RefusedQuiet(net: Net, s: Sys, x: Side, f: Frame)
    requires !Presentable(s, f) || !Verifies(net, s, x, f)
    ensures DeliverStep(net, s, x, f) == s
  {
  }

  /** A frame that verifies is opened exactly when the replay window accepts it. */
  ghost predicate Passes(s: Sys, s': Sys, x: Side, f: Frame)
    requires f.Complete()
  {
    var e := s.At(x);
    var (w, err) := CheckAndSet(e.view.replay, f.SessionId().value, f.Counter().value);
    && s'.At(x) == e.(view := e.view.(replay := w), via := ViaAfter(e, w, f.Epoch().value))
    && s' == s.With(x, s'.At(x)).(openings := s'.openings)
    && s'.openings == s.openings + if err.None? then [f.OpenedBy(x, e.inc)] else []
  }

  lemma Delivered(net: Net, s: Sys, x: Side, f: Frame)
    requires Presentable(s, f) && Verifies(net, s, x, f)
    ensures Passes(s, DeliverStep(net, s, x, f), x, f)
  {
  }

  /** A verified frame leaves the window within what the other end has sealed. */
  lemma CheckedBehind(s: Sys, x: Side, session: nat, counter: nat)
    requires var w := s.At(x).view.replay;
             && (w.cur.Some? ==> Behind(s, x, w.cur.value)) && (w.prev.Some? ==> Behind(s, x, w.prev.value))
    requires session == s.At(Other(x)).inc ==> counter <= s.At(Other(x)).view.counter
    ensures var w := CheckAndSet(s.At(x).view.replay, session, counter).0;
            && (w.cur.Some? ==> Behind(s, x, w.cur.value)) && (w.prev.Some? ==> Behind(s, x, w.prev.value))
  {
  }

  ghost predicate AllAdopted(s: Sys, x: Side, sessions: seq<nat>, via: seq<nat>) {
    |via| == |sessions| && forall i :: 0 <= i < |sessions| ==> Adopted(s, x, sessions[i], via[i])
  }

  lemma AdoptedAppend(s: Sys, x: Side, sessions: seq<nat>, via: seq<nat>, session: nat, n: nat, bound: nat)
    requires AllAdopted(s, x, sessions, via) && Adopted(s, x, session, n)
    ensures AllAdopted(s, x, Bounded(sessions + [session], bound), Bounded(via + [n], bound))
  {
  }

  /** A newly remembered session was adopted through the epoch of the verified frame. */
  lemma CheckedAdopted(net: Net, s: Sys, s': Sys, x: Side, r: Record)
    requires EndInv(net, s, x) && RecordInv(net, s, r) && r.from == Other(x)
    requires SecretFor(s.At(x).view.epochs, r.epoch).Some? && Sound(s.At(x).view.replay)
    requires AllAdopted(s', x, Remembered(s.At(x).view.replay), s.At(x).via)
    requires s'.births == s.births && s'.nextInc == s.nextInc && s'.At(x).hist == s.At(x).hist
    ensures var w := CheckAndSet(s.At(x).view.replay, r.inc, r.counter).0;
            AllAdopted(s', x, Remembered(w), ViaAfter(s.At(x), w, r.epoch))
  {
    var e := s.At(x);
    CheckRemembers(e.view.replay, r.inc, r.counter);
    var n := FoundSecret(net, s, x, r.epoch);
    assert Adopted(s', x, r.inc, n);
    AdoptedAppend(s', x, Remembered(e.view.replay), e.via, r.inc, n, REMEMBERED);
  }

  lemma DeliveredOpening(net: Net, s: Sys, s': Sys, x: Side, f: Frame, i: nat)
    requires EndInv(net, s, x) && OpeningsInv(s) && Grows(s, s') && i < |s.log| && s'.log == s.log
    requires Presentable(s, f) && Verifies(net, s, x, f) && Presents(s, x, f, s.log[i]) && Passes(s, s', x, f)
    ensures OpeningsInv(s')
  {
    var n := FoundSecret(net, s, x, s.log[i].epoch);
    assert Assigned(s, x, s.At(x).inc, s.At(x).hist[n]);
    forall k | 0 <= k < |s'.openings| ensures OpeningInv(s', s'.openings[k]) {
      if k < |s.openings| {
        OpeningSurvives(s, s', s.openings[k]);
      } else {
        assert Opens(s', s'.openings[k], s'.log[i]);
      }
    }
  }

  lemma PassesGrows(s: Sys, s': Sys, x: Side, f: Frame)
    requires s.left.inc != s.right.inc
    requires f.Complete() && Passes(s, s', x, f)
    ensures Grows(s, s') && s'.log == s.log && s'.births == s.births && s'.stray == s.stray
    ensures s'.At(Other(x)) == s.At(Other(x)) && s'.nextKey == s.nextKey && s'.nextInc == s.nextInc
    ensures ExchangeInv(s, x) ==> ExchangeInv(s', x)
    ensures ExchangeInv(s, Other(x)) ==> ExchangeInv(s', Other(x))
  {
  }

  lemma PassesEnd(net: Net, s: Sys, s': Sys, x: Side, f: Frame)
    requires EndInv(net, s, x) && Grows(s, s') && s'.births == s.births
    requires f.Complete() && Passes(s, s', x, f)
    ensures EndInv(net, s', x)
  {
    var e := s.At(x);
    forall i | 0 <= i < |e.hist| ensures Assigned(s', x, e.inc, e.hist[i]) { assert Assigned(s, x, e.inc, e.hist[i]); }
  }

  lemma PassesWindow(net: Net, s: Sys, s': Sys, x: Side, f: Frame, r: Record)
    requires SideInv(net, s, x) && RecordInv(net, s, r) && Presentable(s, f) && Verifies(net, s, x, f)
    requires Presents(s, x, f, r) && Passes(s, s', x, f) && s'.At(Other(x)) == s.At(Other(x))
    ensures WindowInv(net, s', x)
  {
    CheckRemembers(s.At(x).view.replay, r.inc, r.counter);
    CheckedBehind(s, x, r.inc, r.counter);
    var e := s.At(x);
    var q := Remembered(e.view.replay);
    forall i | 0 <= i < |q| ensures Adopted(s', x, q[i], e.via[i]) { assert Adopted(s, x, q[i], e.via[i]); }
    CheckedAdopted(net, s, s', x, r);
  }

  lemma DeliverKeepsInv(net: Net, s: Sys, x: Side, f: Frame)
    requires net.WellFormed() && Inv(net, s)
    ensures Inv(net, DeliverStep(net, s, x, f))
  {
    if !Presentable(s, f) || !Verifies(net, s, x, f) {
      RefusedQuiet(net, s, x, f);
    } else {
      var s', y := DeliverStep(net, s, x, f), Other(x);
      assert SideInv(net, s, x) && SideInv(net, s, y);
      Delivered(net, s, x, f);
      var i := Origin(net, s, x, f);
      PassesGrows(s, s', x, f);
      PassesEnd(net, s, s', x, f);
      PassesWindow(net, s, s', x, f, s.log[i]);
      DeliveredOpening(net, s, s', x, f, i);
      DeliveredRest(net, s, s', x);
    }
  }

  lemma DeliveredRest(net: Net, s: Sys, s': Sys, x: Side)
    requires Inv(net, s) && Grows(s, s') && SideInv(net, s', x) && OpeningsInv(s')
    requires s'.log == s.log && s'.births == s.births && s'.stray == s.stray && s'.At(Other(x)) == s.At(Other(x))
    requires ExchangeInv(s', Other(x))
    ensures Inv(net, s')
  {
    var y := Other(x);
    assert SideInv(net, s, y);
    SameEndSurvives(net, s, s', y);
    WindowSurvives(net, s, s', y);
    BirthsKept(s, s');
    forall i | 0 <= i < |s'.log| ensures RecordInv(net, s', s'.log[i]) { RecordSurvives(net, s, s', s.log[i]); }
    BothSides(net, s', x);
  }

  // ---- runs ----

  lemma AskNext(net: Net, s: Sys, step: Step)
    requires step.Ask? && Inv(net, s)
    ensures Inv(net, Next(net, s, step))
  {
    AskKeepsInv(net, s, step.x, step.now);
    assert Next(net, s, step) == AskStep(net, s, step.x, step.now);
  }

  lemma AnswerNext(net: Net, s: Sys, step: Step)
    requires step.Answer? && Inv(net, s)
    ensures Inv(net, Next(net, s, step))
  {
    AnswerKeepsInv(net, s, step.x, step.epoch, step.now);
    assert Next(net, s, step) == AnswerStep(net, s, step.x, step.epoch, step.now);
  }

  lemma AnswerStrayNext(net: Net, s: Sys, step: Step)
    requires step.AnswerStray? && Inv(net, s)
    ensures Inv(net, Next(net, s, step))
  {
    AnswerStrayKeepsInv(net, s, step.x, step.stray, step.epoch, step.now);
    assert Next(net, s, step) == AnswerStrayStep(net, s, step.x, step.stray, step.epoch, step.now);
  }

  lemma FinishNext(net: Net, s: Sys, step: Step)
    requires step.Finish? && Inv(net, s)
    ensures Inv(net, Next(net, s, step))
  {
    FinishKeepsInv(net, s, step.x, step.now);
    assert Next(net, s, step) == FinishStep(net, s, step.x, step.now);
  }

  lemma GiveUpNext(net: Net, s: Sys, step: Step)
    requires step.GiveUp? && Inv(net, s)
    ensures Inv(net, Next(net, s, step))
  {
    GiveUpKeepsInv(net, s, step.x);
    assert Next(net, s, step) == GiveUpStep(s, step.x);
  }

  lemma RestartNext(net: Net, s: Sys, step: Step)
    requires step.Restart? && Inv(net, s)
    ensures Inv(net, Next(net, s, step))
  {
    RestartKeepsInv(net, s, step.x);
    assert Next(net, s, step) == RestartStep(net, s, step.x);
  }

  lemma EmitNext(net: Net, s: Sys, step: Step)
    requires step.Emit? && Inv(net, s)
    ensures Inv(net, Next(net, s, step))
  {
    EmitKeepsInv(net, s, step.x, step.keyId, step.header, step.plain);
    assert Next(net, s, step) == EmitStep(net, s, step.x, step.keyId, step.header, step.plain);
  }

  lemma DeliverNext(net: Net, s: Sys, step: Step)
    requires step.Deliver? && net.WellFormed() && Inv(net, s)
    ensures Inv(net, Next(net, s, step))
  {
    DeliverKeepsInv(net, s, step.x, step.frame);
    assert Next(net, s, step) == DeliverStep(net, s, step.x, step.frame);
  }

  lemma NextKeepsInv(net: Net, s: Sys, step: Step)
    requires net.WellFormed() && Inv(net, s)
    ensures Inv(net, Next(net, s, step))
  {
    match step
    case Ask(_, _) => AskNext(net, s, step);
    case Answer(_, _, _) => AnswerNext(net, s, step);
    case AnswerStray(_, _, _, _) => AnswerStrayNext(net, s, step);
    case Finish(_, _) => FinishNext(net, s, step);
    case GiveUp(_) => GiveUpNext(net, s, step);
    case Restart(_) => RestartNext(net, s, step);
    case Emit(_, _, _, _) => EmitNext(net, s, step);
    case Deliver(_, _) => DeliverNext(net, s, step);
  }

  lemma {:induction false} AfterKeepsInv(net: Net, s: Sys, steps: seq<Step>)
    requires net.WellFormed() && Inv(net, s)
    ensures Inv(net, After(net, s, steps))
  {
    if steps != [] {
      AfterKeepsInv(net, s, steps[..|steps| - 1]);
      NextKeepsInv(net, After(net, s, steps[..|steps| - 1]), steps[|steps| - 1]);
    }
  }

  lemma RunKeepsInv(net: Net, steps: seq<Step>)
    requires net.WellFormed()
    ensures Inv(net, Run(net, steps))
  {
    InitInv(net);
    AfterKeepsInv(net, Init(net), steps);
  }
}
