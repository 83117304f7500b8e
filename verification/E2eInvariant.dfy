/** What every run of the two-party end-to-end protocol keeps. */
module E2eInvariant {
  import opened Wrappers
  import opened Symbolic
  import opened Headers
  import opened ReplaySpec
  import opened E2eSpec
  import opened E2eProtocol
  import opened Widths

  // ---- histories ----

  ghost predicate DistinctEpochs(q: Epochs) {
    forall i, j :: 0 <= i < j < |q| ==> q[i].0 != q[j].0
  }

  lemma {:induction false} SecretForMember(q: Epochs, e: nat)
    ensures match SecretFor(q, e)
            case Some(k) => exists i :: 0 <= i < |q| && q[i] == (e, k)
            case None => forall i :: 0 <= i < |q| ==> q[i].0 != e
  {
    if q != [] {
      SecretForMember(q[1..], e);
      if q[0].0 == e {
        assert q[0] == (e, q[0].1);
      } else {
        match SecretFor(q[1..], e)
        case Some(k) =>
          var i :| 0 <= i < |q[1..]| && q[1..][i] == (e, k);
          assert q[i + 1] == (e, k);
        case None =>
          forall i | 0 <= i < |q| ensures q[i].0 != e { if i > 0 { assert q[1..][i - 1] == q[i]; } }
      }
    }
  }

  lemma SecretForAt(q: Epochs, i: nat)
    requires DistinctEpochs(q) && i < |q|
    ensures SecretFor(q, q[i].0) == Some(q[i].1)
  {
    SecretForMember(q, q[i].0);
  }

  lemma {:induction false} RetainFresh(q: Epochs, e: nat)
    requires forall i :: 0 <= i < |q| ==> q[i].0 != e
    ensures Retain(q, e) == q
  {
    if q != [] {
      forall i | 0 <= i < |q[1..]| ensures q[1..][i].0 != e { assert q[1..][i] == q[i + 1]; }
      RetainFresh(q[1..], e);
    }
  }

  lemma NewestSnoc<T>(q: seq<T>, x: T, n: nat)
    requires n > 0
    ensures Newest(Newest(q, n) + [x], n) == Newest(q + [x], n)
  {
  }

  /** Storing a fresh epoch appends it to what the process ever stored, pruned to the bound. */
  lemma StoredHistory(v: PeerView, hist: Epochs, e: nat, k: Secret, keep: nat)
    requires v.epochs == Newest(hist, Max(keep, 1))
    requires forall i :: 0 <= i < |hist| ==> hist[i].0 != e
    ensures Stored(v, e, k, keep).epochs == Newest(hist + [(e, k)], Max(keep, 1))
  {
    forall i | 0 <= i < |v.epochs| ensures v.epochs[i].0 != e {
      assert v.epochs[i] == hist[|hist| - |v.epochs| + i];
    }
    RetainFresh(v.epochs, e);
    NewestSnoc(hist, (e, k), Max(keep, 1));
  }

  lemma {:induction false} IndexOfAt(q: Epochs, i: nat)
    requires DistinctEpochs(q) && i < |q|
    ensures IndexOf(q, q[i].0) == i
  {
    if i > 0 {
      forall a, b | 0 <= a < b < |q[1..]| ensures q[1..][a].0 != q[1..][b].0 {
        assert q[1..][a] == q[a + 1] && q[1..][b] == q[b + 1];
      }
      IndexOfAt(q[1..], i - 1);
    }
  }

  // ---- the invariant ----

  /** An end holds the newest epochs its process stored, each with the secret and for the
      process it was assigned, and sends with the newest. */
  ghost predicate EndInv(net: Net, s: Sys, x: Side) {
    var e := s.At(x);
    && e.view.epochs == Newest(e.hist, Max(net.CfgOf(x).keep, 1))
    && DistinctEpochs(e.hist)
    && (forall i :: 0 <= i < |e.hist| ==> Assigned(s, x, e.inc, e.hist[i]))
    && e.view.sendEpoch == (if e.hist == [] then None else Some(e.hist[|e.hist| - 1].0))
    && e.inc < s.nextInc
  }

  ghost predicate Assigned(s: Sys, x: Side, inc: nat, h: (nat, Secret)) {
    h.0 in s.births && s.births[h.0].secret == h.1 && s.births[h.0].Party(x) == inc
  }

  /** An exchange in flight belongs to the pending key pair of the end that asked. */
  ghost predicate ExchangeInv(s: Sys, x: Side) {
    var e := s.At(x);
    match e.exch
    case Asked(k) => k < s.nextKey && e.view.pending.Some? && e.view.pending.value.0 == k
    case Answered(r) =>
      && e.view.pending.Some? && r.ct.Some? && r.epoch != 0
      && r.ct.value.key == e.view.pending.value.0
      && Assigned(s, x, e.inc, (r.epoch, Shared(r.ct.value.key, r.ct.value.coin)))
      && forall i :: 0 <= i < |e.hist| ==> e.hist[i].0 != r.epoch
    case _ => true
  }

  /** Every epoch number has one secret, and no two have the same. */
  ghost predicate BirthInv(s: Sys) {
    && (forall e :: e in s.births ==> BirthOk(s, e))
    && (forall e, f :: e in s.births && f in s.births && e != f ==> s.births[e].secret != s.births[f].secret)
    && (forall t :: t in s.stray ==> t.key < s.nextKey && t.inc < s.nextInc)
  }

  ghost predicate BirthOk(s: Sys, e: nat)
    requires e in s.births
  {
    var b := s.births[e];
    0 < e < U32 && b.secret.Shared? && b.secret.key < s.nextKey && b.secret.coin < s.nextCoin
    && b.left < s.nextInc && b.right < s.nextInc
  }

  /** A sealed frame is what its sender's process sealed, and says so in its header. */
  ghost predicate RecordInv(net: Net, s: Sys, r: Record) {
    && Assigned(s, r.from, r.inc, (r.epoch, r.secret))
    && r.sealed == SealWith(r.secret, net.Id(r.from), net.Id(Other(r.from)), r.keyId, r.sealed.header, r.plain)
    && Ascending(r.sealed.header) && EntriesFit(r.sealed.header)
    && NumberField(r.sealed.header, HDR_E2E_EPOCH, 10, U32) == Some(r.epoch)
    && NumberField(r.sealed.header, HDR_E2E_CTR, 10, U64) == Some(r.counter)
    && NumberField(r.sealed.header, HDR_INCARNATION, 16, U64) == Some(r.inc)
    && r.counter > 0 && r.inc < s.nextInc
    && (r.inc == s.At(r.from).inc ==> r.counter <= s.At(r.from).view.counter)
    && (r.inc == s.At(Other(r.from)).inc ==> false)
  }

  ghost predicate LogInv(net: Net, s: Sys) {
    && s.left.inc != s.right.inc
    && (forall i :: 0 <= i < |s.log| ==> RecordInv(net, s, s.log[i]))
    && (forall i, j :: 0 <= i < j < |s.log| ==> s.log[i].inc != s.log[j].inc || s.log[i].counter != s.log[j].counter)
  }

  /** Nothing beyond what the sender has sealed is marked in the receiver's window, and every
      remembered session was adopted through an epoch shared with that process. */
  ghost predicate WindowInv(net: Net, s: Sys, x: Side) {
    var e := s.At(x);
    var w, q := e.view.replay, Remembered(e.view.replay);
    && Sound(w)
    && |e.via| == |q|
    && (forall i :: 0 <= i < |q| ==> Adopted(s, x, q[i], e.via[i]))
    && (w.cur.Some? ==> Behind(s, x, w.cur.value))
    && (w.prev.Some? ==> Behind(s, x, w.prev.value))
  }

  ghost predicate Adopted(s: Sys, x: Side, session: nat, through: nat) {
    var e := s.At(x);
    && session < s.nextInc
    && through < |e.hist| && e.hist[through].0 in s.births
    && s.births[e.hist[through].0].Party(Other(x)) == session
  }

  ghost predicate Behind(s: Sys, x: Side, w: Session) {
    w.id == s.At(Other(x)).inc ==> w.highest <= s.At(Other(x)).view.counter
  }

  /** Everything opened was sealed by the other end, for this process. */
  ghost predicate OpeningInv(s: Sys, o: Opening) {
    exists i :: 0 <= i < |s.log| && Opens(s, o, s.log[i])
  }

  ghost predicate Opens(s: Sys, o: Opening, r: Record) {
    && r.sealed.tag == o.tag && r.from == Other(o.to) && r.plain == o.plain
    && r.epoch == o.epoch && r.inc == o.session && r.counter == o.counter
    && o.epoch in s.births && s.births[o.epoch].Party(o.to) == o.inc && o.inc < s.nextInc
  }

  ghost predicate OpeningsInv(s: Sys) {
    forall k :: 0 <= k < |s.openings| ==> OpeningInv(s, s.openings[k])
  }

  ghost predicate SideInv(net: Net, s: Sys, x: Side) {
    EndInv(net, s, x) && ExchangeInv(s, x) && WindowInv(net, s, x)
  }

  ghost predicate Inv(net: Net, s: Sys) {
    SideInv(net, s, Left) && SideInv(net, s, Right) && BirthInv(s) && LogInv(net, s) && OpeningsInv(s)
  }

  lemma InitInv(net: Net)
    ensures Inv(net, Init(net))
  {
  }

  // ---- what survives any step ----

  /** Epochs are only assigned, frames only added, and a process only counts up or is replaced. */
  ghost predicate Grows(s: Sys, s': Sys) {
    && (forall e :: e in s.births ==> e in s'.births && s'.births[e] == s.births[e])
    && s'.nextKey >= s.nextKey && s'.nextCoin >= s.nextCoin && s'.nextInc >= s.nextInc
    && |s.log| <= |s'.log| && (forall i :: 0 <= i < |s.log| ==> s'.log[i] == s.log[i])
    && EndGrows(s, s.left, s'.left) && EndGrows(s, s.right, s'.right)
    && s'.left.inc != s'.right.inc
  }

  ghost predicate EndGrows(s: Sys, e: End, e': End) {
    (e'.inc == e.inc && e'.view.counter >= e.view.counter) || e'.inc >= s.nextInc
  }

  /** An end whose process, history, epochs and window did not change. */
  ghost predicate SameEnd(e: End, e': End) {
    && e'.inc == e.inc && e'.hist == e.hist && e'.via == e.via
    && e'.view.epochs == e.view.epochs && e'.view.sendEpoch == e.view.sendEpoch
    && e'.view.replay == e.view.replay
  }

  lemma RecordSurvives(net: Net, s: Sys, s': Sys, r: Record)
    requires RecordInv(net, s, r) && Grows(s, s')
    ensures RecordInv(net, s', r)
  {
  }

  lemma OpeningSurvives(s: Sys, s': Sys, o: Opening)
    requires OpeningInv(s, o) && Grows(s, s')
    ensures OpeningInv(s', o)
  {
    var i :| 0 <= i < |s.log| && Opens(s, o, s.log[i]);
    assert Opens(s', o, s'.log[i]);
  }

  lemma SameEndSurvives(net: Net, s: Sys, s': Sys, x: Side)
    requires EndInv(net, s, x) && Grows(s, s') && SameEnd(s.At(x), s'.At(x))
    ensures EndInv(net, s', x)
  {
    var e := s.At(x);
    forall i | 0 <= i < |e.hist| ensures Assigned(s', x, e.inc, e.hist[i]) { assert Assigned(s, x, e.inc, e.hist[i]); }
  }

  /** A window keeps its relation to the other end while the history it refers to only grows. */
  lemma WindowSurvives(net: Net, s: Sys, s': Sys, x: Side)
    requires WindowInv(net, s, x) && Grows(s, s')
    requires s'.At(x).view.replay == s.At(x).view.replay && s'.At(x).via == s.At(x).via
    requires |s.At(x).hist| <= |s'.At(x).hist|
    requires forall i :: 0 <= i < |s.At(x).hist| ==> s'.At(x).hist[i] == s.At(x).hist[i]
    ensures WindowInv(net, s', x)
  {
    var e := s.At(x);
    var w, q := e.view.replay, Remembered(e.view.replay);
    forall i | 0 <= i < |q| ensures Adopted(s', x, q[i], e.via[i]) { assert Adopted(s, x, q[i], e.via[i]); }
    assert w.cur.Some? ==> w.cur.value.id == q[|q| - 1];
    assert w.prev.Some? ==> w.prev.value.id == q[|w.retired|];
  }

  /** The parts that do not depend on which end moved. */
  lemma GrowthKeeps(net: Net, s: Sys, s': Sys)
    requires Inv(net, s) && Grows(s, s')
    requires s'.log == s.log && s'.openings == s.openings
    ensures LogInv(net, s') && OpeningsInv(s')
  {
    forall i | 0 <= i < |s'.log| ensures RecordInv(net, s', s'.log[i]) { RecordSurvives(net, s, s', s.log[i]); }
    forall k | 0 <= k < |s'.openings| ensures OpeningInv(s', s'.openings[k]) { OpeningSurvives(s, s', s.openings[k]); }
  }

  lemma BirthsKept(s: Sys, s': Sys)
    requires BirthInv(s) && s'.births == s.births
    requires s'.nextKey >= s.nextKey && s'.nextCoin >= s.nextCoin && s'.nextInc >= s.nextInc
    requires forall t :: t in s'.stray ==> t.key < s'.nextKey && t.inc < s'.nextInc
    ensures BirthInv(s')
  {
    forall e | e in s'.births ensures BirthOk(s', e) { assert BirthOk(s, e); }
  }

  // ---- the steps ----

  /** Steps that change only the exchange and the fields around it. */
  lemma QuietStepKeepsInv(net: Net, s: Sys, s': Sys)
    requires Inv(net, s) && Grows(s, s')
    requires SameEnd(s.left, s'.left) && SameEnd(s.right, s'.right)
    requires s'.births == s.births && s'.log == s.log && s'.openings == s.openings
    requires forall t :: t in s'.stray ==> t.key < s'.nextKey && t.inc < s'.nextInc
    requires ExchangeInv(s', Left) && ExchangeInv(s', Right)
    ensures Inv(net, s')
  {
    SameEndSurvives(net, s, s', Left);
    SameEndSurvives(net, s, s', Right);
    WindowSurvives(net, s, s', Left);
    WindowSurvives(net, s, s', Right);
    GrowthKeeps(net, s, s');
    BirthsKept(s, s');
  }

  /** The premises of the lemma above. */
  ghost predicate Quiet(s: Sys, s': Sys) {
    && Grows(s, s') && SameEnd(s.left, s'.left) && SameEnd(s.right, s'.right)
    && s'.births == s.births && s'.log == s.log && s'.openings == s.openings
    && (forall t :: t in s'.stray ==> t.key < s'.nextKey && t.inc < s'.nextInc)
    && ExchangeInv(s', Left) && ExchangeInv(s', Right)
  }

  lemma AskQuiet(net: Net, s: Sys, x: Side, now: nat)
    requires s.left.inc != s.right.inc && ExchangeInv(s, Left) && ExchangeInv(s, Right)
    requires forall t :: t in s.stray ==> t.key < s.nextKey && t.inc < s.nextInc
    ensures Quiet(s, AskStep(net, s, x, now))
  {
    AskExchange(net, s, x, now, Left);
    AskExchange(net, s, x, now, Right);
  }

  lemma AskExchange(net: Net, s: Sys, x: Side, now: nat, y: Side)
    requires ExchangeInv(s, y)
    ensures ExchangeInv(AskStep(net, s, x, now), y)
  {
  }

  lemma AskKeepsInv(net: Net, s: Sys, x: Side, now: nat)
    requires Inv(net, s)
    ensures Inv(net, AskStep(net, s, x, now))
  {
    AskQuiet(net, s, x, now);
    QuietStepKeepsInv(net, s, AskStep(net, s, x, now));
  }

  lemma GiveUpQuiet(s: Sys, x: Side)
    requires s.left.inc != s.right.inc && ExchangeInv(s, Left) && ExchangeInv(s, Right)
    requires s.left.inc < s.nextInc && s.right.inc < s.nextInc
    requires forall t :: t in s.stray ==> t.key < s.nextKey && t.inc < s.nextInc
    ensures Quiet(s, GiveUpStep(s, x))
  {
    GiveUpExchange(s, x, Left);
    GiveUpExchange(s, x, Right);
  }

  lemma GiveUpExchange(s: Sys, x: Side, y: Side)
    requires ExchangeInv(s, y)
    ensures ExchangeInv(GiveUpStep(s, x), y)
  {
  }

  lemma GiveUpKeepsInv(net: Net, s: Sys, x: Side)
    requires Inv(net, s)
    ensures Inv(net, GiveUpStep(s, x))
  {
    GiveUpQuiet(s, x);
    QuietStepKeepsInv(net, s, GiveUpStep(s, x));
  }

  lemma NewEndInv(net: Net, s: Sys, x: Side)
    requires s.At(x) == NewEnd(net.CfgOf(x), s.At(x).inc) && s.At(x).inc < s.nextInc
    ensures SideInv(net, s, x)
  {
  }

  lemma BothSides(net: Net, s: Sys, x: Side)
    requires SideInv(net, s, x) && SideInv(net, s, Other(x)) && BirthInv(s) && LogInv(net, s) && OpeningsInv(s)
    ensures Inv(net, s)
  {
  }

  lemma RestartFrame(net: Net, s: Sys, x: Side)
    requires s.left.inc < s.nextInc && s.right.inc < s.nextInc && s.left.inc != s.right.inc
    requires ExchangeInv(s, Left) && ExchangeInv(s, Right)
    requires forall t :: t in s.stray ==> t.key < s.nextKey && t.inc < s.nextInc
    ensures var s' := RestartStep(net, s, x); var y := Other(x);
            && Grows(s, s') && s'.At(y) == s.At(y) && ExchangeInv(s', y)
            && s'.At(x) == NewEnd(net.CfgOf(x), s'.At(x).inc) && s'.At(x).inc < s'.nextInc
            && s'.births == s.births && s'.log == s.log && s'.openings == s.openings
            && forall t :: t in s'.stray ==> t.key < s'.nextKey && t.inc < s'.nextInc
  {
  }

  lemma RestartKeepsInv(net: Net, s: Sys, x: Side)
    requires Inv(net, s)
    ensures Inv(net, RestartStep(net, s, x))
  {
    RestartFrame(net, s, x);
    RestartedInv(net, s, RestartStep(net, s, x), x);
  }

  lemma RestartedInv(net: Net, s: Sys, s': Sys, x: Side)
    requires Inv(net, s) && Grows(s, s') && s'.At(Other(x)) == s.At(Other(x)) && ExchangeInv(s', Other(x))
    requires s'.At(x) == NewEnd(net.CfgOf(x), s'.At(x).inc) && s'.At(x).inc < s'.nextInc
    requires s'.births == s.births && s'.log == s.log && s'.openings == s.openings
    requires forall t :: t in s'.stray ==> t.key < s'.nextKey && t.inc < s'.nextInc
    ensures Inv(net, s')
  {
    assert SideInv(net, s, Other(x));
    NewEndInv(net, s', x);
    SameEndSurvives(net, s, s', Other(x));
    WindowSurvives(net, s, s', Other(x));
    GrowthKeeps(net, s, s');
    BirthsKept(s, s');
    BothSides(net, s', x);
  }

  lemma StoreKeepsEnd(net: Net, s: Sys, s': Sys, x: Side, v: PeerView, epoch: nat, secret: Secret)
    requires EndInv(net, s, x) && Grows(s, s') && s'.At(x).inc == s.At(x).inc
    requires v.epochs == s.At(x).view.epochs
    requires forall i :: 0 <= i < |s.At(x).hist| ==> s.At(x).hist[i].0 != epoch
    requires s'.At(x).hist == s.At(x).hist + [(epoch, secret)]
    requires s'.At(x).view.epochs == Stored(v, epoch, secret, net.CfgOf(x).keep).epochs
    requires s'.At(x).view.sendEpoch == Some(epoch)
    requires Assigned(s', x, s.At(x).inc, (epoch, secret))
    ensures EndInv(net, s', x)
  {
    var e, h := s.At(x), s'.At(x).hist;
    StoredHistory(v, e.hist, epoch, secret, net.CfgOf(x).keep);
    AssignedStays(s, s', x, e.inc, e.hist);
    assert forall i :: 0 <= i < |h| ==> h[i] == if i < |e.hist| then e.hist[i] else (epoch, secret);
  }

  lemma AssignedStays(s: Sys, s': Sys, x: Side, inc: nat, hist: Epochs)
    requires Grows(s, s') && forall i :: 0 <= i < |hist| ==> Assigned(s, x, inc, hist[i])
    ensures forall i :: 0 <= i < |hist| ==> Assigned(s', x, inc, hist[i])
  {
    forall i | 0 <= i < |hist| ensures Assigned(s', x, inc, hist[i]) { assert Assigned(s, x, inc, hist[i]); }
  }

  lemma BirthKeepsInv(s: Sys, s': Sys, epoch: nat, b: Birth)
    requires BirthInv(s) && Drawable(s, epoch)
    requires b.secret.Shared? && b.secret.key < s.nextKey && b.secret.coin == s.nextCoin
    requires b.left < s.nextInc && b.right < s.nextInc
    requires s'.births == s.births[epoch := b] && s'.stray == s.stray
    requires s'.nextCoin == s.nextCoin + 1 && s'.nextKey == s.nextKey && s'.nextInc == s.nextInc
    ensures BirthInv(s')
  {
    forall e | e in s'.births ensures BirthOk(s', e) { if e != epoch { assert BirthOk(s, e); } }
    forall e, f | e in s'.births && f in s'.births && e != f ensures s'.births[e].secret != s'.births[f].secret {
      if e != epoch { assert BirthOk(s, e); }
      if f != epoch { assert BirthOk(s, f); }
    }
  }

  lemma HistoryKnown(net: Net, s: Sys, x: Side, epoch: nat)
    requires EndInv(net, s, x) && epoch !in s.births
    ensures forall i :: 0 <= i < |s.At(x).hist| ==> s.At(x).hist[i].0 != epoch
  {
    forall i | 0 <= i < |s.At(x).hist| ensures s.At(x).hist[i].0 != epoch {
      assert Assigned(s, x, s.At(x).inc, s.At(x).hist[i]);
    }
  }

  /** One end extends its history and the other does not move. */
  ghost predicate Extends(s: Sys, s': Sys, x: Side) {
    && Grows(s, s') && s'.At(Other(x)) == s.At(Other(x))
    && s'.At(x).view.replay == s.At(x).view.replay && s'.At(x).via == s.At(x).via
    && |s.At(x).hist| <= |s'.At(x).hist|
    && (forall i :: 0 <= i < |s.At(x).hist| ==> s'.At(x).hist[i] == s.At(x).hist[i])
    && s'.log == s.log && s'.openings == s.openings
  }

  lemma ExtendingStepKeepsInv(net: Net, s: Sys, s': Sys, x: Side)
    requires Inv(net, s) && Extends(s, s', x)
    requires EndInv(net, s', x) && BirthInv(s') && ExchangeInv(s', x)
    ensures Inv(net, s')
  {
    var y := Other(x);
    assert SideInv(net, s, x) && SideInv(net, s, y);
    WindowSurvives(net, s, s', x);
    SameEndSurvives(net, s, s', y);
    WindowSurvives(net, s, s', y);
    assert ExchangeInv(s', y);
    GrowthKeeps(net, s, s');
    BothSides(net, s', x);
  }

  lemma RespondedExtends(net: Net, s: Sys, x: Side, asker: nat, key: nat, epoch: nat, now: nat)
    requires Drawable(s, epoch) && s.left.inc != s.right.inc && ExchangeInv(s, x)
    requires RespondStep(net, s, x, asker, key, epoch, now).1.Some?
    ensures var s' := RespondStep(net, s, x, asker, key, epoch, now).0;
            Extends(s, s', x) && ExchangeInv(s', x)
  {
  }

  /** What a responder's step does when it answers. */
  lemma Responded(net: Net, s: Sys, x: Side, asker: nat, key: nat, epoch: nat, now: nat)
    requires SideInv(net, s, x) && Drawable(s, epoch) && s.left.inc != s.right.inc
    requires RespondStep(net, s, x, asker, key, epoch, now).1.Some?
    ensures var s' := RespondStep(net, s, x, asker, key, epoch, now).0;
            EndInv(net, s', x) && ExchangeInv(s', x) && Extends(s, s', x)
  {
    var s' := RespondStep(net, s, x, asker, key, epoch, now).0;
    RespondedExtends(net, s, x, asker, key, epoch, now);
    HistoryKnown(net, s, x, epoch);
    StoreKeepsEnd(net, s, s', x, Admitted(s.At(x).view, net.CfgOf(x), now).value, epoch, Shared(key, s.nextCoin));
  }

  lemma RespondedBirth(net: Net, s: Sys, x: Side, asker: nat, key: nat, epoch: nat, now: nat)
    requires BirthInv(s) && Drawable(s, epoch) && s.At(x).inc < s.nextInc && asker < s.nextInc && key < s.nextKey
    requires RespondStep(net, s, x, asker, key, epoch, now).1.Some?
    ensures BirthInv(RespondStep(net, s, x, asker, key, epoch, now).0)
  {
    var s' := RespondStep(net, s, x, asker, key, epoch, now).0;
    BirthKeepsInv(s, s', epoch, s'.births[epoch]);
  }

  lemma RespondQuiet(net: Net, s: Sys, x: Side, asker: nat, key: nat, epoch: nat, now: nat)
    requires s.left.inc != s.right.inc && ExchangeInv(s, Left) && ExchangeInv(s, Right)
    requires forall t :: t in s.stray ==> t.key < s.nextKey && t.inc < s.nextInc
    requires RespondStep(net, s, x, asker, key, epoch, now).1.None?
    ensures Quiet(s, RespondStep(net, s, x, asker, key, epoch, now).0)
  {
  }

  lemma RespondKeepsInv(net: Net, s: Sys, x: Side, asker: nat, key: nat, epoch: nat, now: nat)
    requires Inv(net, s) && Drawable(s, epoch) && asker < s.nextInc && key < s.nextKey
    ensures Inv(net, RespondStep(net, s, x, asker, key, epoch, now).0)
  {
    var (s', resp) := RespondStep(net, s, x, asker, key, epoch, now);
    if resp.None? {
      RespondQuiet(net, s, x, asker, key, epoch, now);
      QuietStepKeepsInv(net, s, s');
    } else {
      assert SideInv(net, s, x);
      Responded(net, s, x, asker, key, epoch, now);
      RespondedBirth(net, s, x, asker, key, epoch, now);
      ExtendingStepKeepsInv(net, s, s', x);
    }
  }

  /** Changing only what an end knows of its exchange. */
  lemma ExchangeStepKeepsInv(net: Net, s: Sys, y: Side, exch: Exchange)
    requires Inv(net, s) && ExchangeInv(s.With(y, s.At(y).(exch := exch)), y)
    ensures Inv(net, s.With(y, s.At(y).(exch := exch)))
  {
    var s' := s.With(y, s.At(y).(exch := exch));
    assert SideInv(net, s, Other(y)) && s'.At(Other(y)) == s.At(Other(y));
    ExchangeStays(s, s', Other(y));
    QuietStepKeepsInv(net, s, s');
  }

  lemma ExchangeStays(s: Sys, s': Sys, x: Side)
    requires ExchangeInv(s, x) && s'.At(x) == s.At(x) && s'.births == s.births && s'.nextKey == s.nextKey
    ensures ExchangeInv(s', x)
  {
  }

  /** The answer reaches the asker, whose pending key pair it was made for. */
  lemma AnswerReaches(net: Net, s: Sys, x: Side, epoch: nat, now: nat)
    requires s.At(Other(x)).exch.Asked? && Drawable(s, epoch) && ExchangeInv(s, Other(x))
    requires forall i :: 0 <= i < |s.At(Other(x)).hist| ==> s.At(Other(x)).hist[i].0 != epoch
    ensures var y := Other(x); var asker := s.At(y);
            var (s1, resp) := RespondStep(net, s, x, asker.inc, asker.exch.key, epoch, now);
            var exch := if resp.Some? then Answered(resp.value) else Lost;
            AnswerStep(net, s, x, epoch, now) == s1.With(y, s1.At(y).(exch := exch))
            && ExchangeInv(s1.With(y, s1.At(y).(exch := exch)), y)
  {
  }

  lemma AnswerKeepsInv(net: Net, s: Sys, x: Side, epoch: nat, now: nat)
    requires Inv(net, s)
    ensures Inv(net, AnswerStep(net, s, x, epoch, now))
  {
    var y := Other(x);
    var asker := s.At(y);
    if asker.exch.Asked? && Drawable(s, epoch) {
      assert SideInv(net, s, y);
      HistoryKnown(net, s, y, epoch);
      RespondKeepsInv(net, s, x, asker.inc, asker.exch.key, epoch, now);
      AnswerReaches(net, s, x, epoch, now);
      var (s1, resp) := RespondStep(net, s, x, asker.inc, asker.exch.key, epoch, now);
      ExchangeStepKeepsInv(net, s1, y, if resp.Some? then Answered(resp.value) else Lost);
    }
  }

  lemma AnswerStrayKeepsInv(net: Net, s: Sys, x: Side, stray: Stray, epoch: nat, now: nat)
    requires Inv(net, s)
    ensures Inv(net, AnswerStrayStep(net, s, x, stray, epoch, now))
  {
    if stray in s.stray && stray.asker != x && Drawable(s, epoch) {
      RespondKeepsInv(net, s, x, stray.inc, stray.key, epoch, now);
      var s1 := RespondStep(net, s, x, stray.inc, stray.key, epoch, now).0;
      QuietStepKeepsInv(net, s1, AnswerStrayStep(net, s, x, stray, epoch, now));
    }
  }

  lemma FinishedExtends(net: Net, s: Sys, x: Side, now: nat)
    requires s.At(x).exch.Answered? && s.left.inc != s.right.inc && ExchangeInv(s, x)
    requires Complete(s.At(x).view, net.CfgOf(x), s.At(x).exch.resp, now).1.Ok?
    ensures var s' := FinishStep(net, s, x, now); var e, r := s.At(x), s.At(x).exch.resp;
            && Extends(s, s', x) && ExchangeInv(s', x) && s'.births == s.births && s'.At(x).inc == e.inc
            && s'.At(x).hist == e.hist + [(r.epoch, Shared(r.ct.value.key, r.ct.value.coin))]
            && s'.At(x).view.sendEpoch == Some(r.epoch)
            && s'.At(x).view.epochs == Stored(e.view.(pending := None), r.epoch, Shared(r.ct.value.key, r.ct.value.coin), net.CfgOf(x).keep).epochs
  {
  }

  /** What the asker's step does when it accepts the answer. */
  lemma Finished(net: Net, s: Sys, x: Side, now: nat)
    requires SideInv(net, s, x) && s.At(x).exch.Answered? && s.left.inc != s.right.inc
    requires Complete(s.At(x).view, net.CfgOf(x), s.At(x).exch.resp, now).1.Ok?
    ensures var s' := FinishStep(net, s, x, now);
            EndInv(net, s', x) && ExchangeInv(s', x) && Extends(s, s', x)
  {
    var e, resp := s.At(x), s.At(x).exch.resp;
    FinishedExtends(net, s, x, now);
    StoreKeepsEnd(net, s, FinishStep(net, s, x, now), x, e.view.(pending := None),
                  resp.epoch, Shared(resp.ct.value.key, resp.ct.value.coin));
  }

  lemma FinishQuiet(net: Net, s: Sys, x: Side, now: nat)
    requires s.left.inc != s.right.inc && ExchangeInv(s, Left) && ExchangeInv(s, Right)
    requires forall t :: t in s.stray ==> t.key < s.nextKey && t.inc < s.nextInc
    requires s.At(x).exch.Answered? && Complete(s.At(x).view, net.CfgOf(x), s.At(x).exch.resp, now).1.Err?
    ensures Quiet(s, FinishStep(net, s, x, now))
  {
  }

  lemma FinishFrame(net: Net, s: Sys, x: Side, now: nat)
    ensures var s' := FinishStep(net, s, x, now);
            s'.births == s.births && s'.stray == s.stray && s'.nextKey == s.nextKey && s'.nextCoin == s.nextCoin && s'.nextInc == s.nextInc
  {
  }

  lemma FinishedInv(net: Net, s: Sys, s': Sys, x: Side)
    requires Inv(net, s) && EndInv(net, s', x) && ExchangeInv(s', x) && Extends(s, s', x)
    requires s'.births == s.births && s'.stray == s.stray && s'.nextKey == s.nextKey && s'.nextCoin == s.nextCoin && s'.nextInc == s.nextInc
    ensures Inv(net, s')
  {
    BirthsKept(s, s');
    ExtendingStepKeepsInv(net, s, s', x);
  }

  lemma FinishedKeepsInv(net: Net, s: Sys, x: Side, now: nat)
    requires Inv(net, s) && s.At(x).exch.Answered?
    requires Complete(s.At(x).view, net.CfgOf(x), s.At(x).exch.resp, now).1.Ok?
    ensures Inv(net, FinishStep(net, s, x, now))
  {
    assert SideInv(net, s, x);
    FinishFrame(net, s, x, now);
    Finished(net, s, x, now);
    FinishedInv(net, s, FinishStep(net, s, x, now), x);
  }

  lemma FinishKeepsInv(net: Net, s: Sys, x: Side, now: nat)
    requires Inv(net, s)
    ensures Inv(net, FinishStep(net, s, x, now))
  {
    if s.At(x).exch.Answered? {
      if Complete(s.At(x).view, net.CfgOf(x), s.At(x).exch.resp, now).1.Err? {
        FinishQuiet(net, s, x, now);
        QuietStepKeepsInv(net, s, FinishStep(net, s, x, now));
      } else {
        FinishedKeepsInv(net, s, x, now);
      }
    }
  }
}
