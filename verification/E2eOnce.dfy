/**
 No frame is opened twice. The replay window forgets a session once ten others were adopted
 after it, so this rests on the epoch history being short: a frame's epoch is dropped
 before its session can be forgotten.
 */
module E2eOnce {
  import opened Bytes
  import opened Headers
  import opened ReplaySpec
  import opened E2eSpec
  import opened E2eProtocol
  import opened E2eInvariant
  import opened E2eFrames

  /** The largest epoch history for which the window remembers long enough. */
  const KEEP_LIMIT: nat := 5

  // ---- counting ----

  lemma {:induction false} DistinctWithin(q: seq<int>, lo: int, hi: int)
    requires forall i, j :: 0 <= i < j < |q| ==> q[i] != q[j]
    requires forall i :: 0 <= i < |q| ==> lo <= q[i] < hi
    ensures q == [] || |q| <= hi - lo
    decreases hi - lo
  {
    if q != [] {
      assert lo <= q[0] < hi;
      if exists i :: 0 <= i < |q| && q[i] == hi - 1 {
        var i :| 0 <= i < |q| && q[i] == hi - 1;
        DistinctWithin(q[..i] + q[i + 1..], lo, hi - 1);
      } else {
        DistinctWithin(q, lo, hi - 1);
      }
    }
  }

  /** At most eight other epochs are ever held together with a given one. */
  lemma NeighboursBounded(q: seq<int>, n: int, keep: nat)
    requires keep <= KEEP_LIMIT
    requires forall i, j :: 0 <= i < j < |q| ==> q[i] != q[j]
    requires forall i :: 0 <= i < |q| ==> q[i] != n && n - keep < q[i] < n + keep
    ensures |q| <= 8
  {
    if q != [] {
      assert n - keep < q[0] < n + keep;
      DistinctWithin(q + [n], n - keep + 1, n + keep);
    }
  }

  // ---- the invariant ----

  function Kept(net: Net, x: Side): nat { Max(net.CfgOf(x).keep, 1) }

  /** `m` is not `n` and could be held together with it. */
  ghost predicate Near(n: nat, m: nat, keep: nat) {
    m != n && n < m + keep && m < n + keep
  }

  /** The window refuses the pair; its session is at place `p`, and all sessions adopted since
      the pair was accepted came through epochs near `n`. */
  ghost predicate Guards(e: End, keep: nat, n: nat, session: nat, counter: nat, p: nat) {
    var q := Remembered(e.view.replay);
    && |e.via| == |q| && p < |q| && q[p] == session
    && !Accepts(e.view.replay, session, counter)
    && forall i :: p + 1 < i < |q| ==> Near(n, e.via[i], keep)
  }

  /** A frame of the epoch at index `n` stays refused while that epoch is held. */
  ghost predicate Barred(net: Net, e: End, o: Opening, n: nat) {
    && n < |e.hist| && e.hist[n].0 == o.epoch
    && (|e.hist| <= n + Kept(net, o.to) ==> exists p: nat :: Guards(e, Kept(net, o.to), n, o.session, o.counter, p))
  }

  ghost predicate Guarded(net: Net, s: Sys, o: Opening) {
    o.inc == s.At(o.to).inc ==> exists n: nat :: Barred(net, s.At(o.to), o, n)
  }

  ghost predicate AllGuarded(net: Net, s: Sys, openings: seq<Opening>) {
    forall k :: 0 <= k < |openings| ==> Guarded(net, s, openings[k])
  }

  ghost predicate OnceInv(net: Net, s: Sys) {
    AllGuarded(net, s, s.openings) && DistinctPairs(s.openings)
  }

  /** No session and counter were opened twice. */
  ghost predicate DistinctPairs(q: seq<Opening>) {
    forall k, l :: 0 <= k < l < |q| ==> q[k].session != q[l].session || q[k].counter != q[l].counter
  }

  // ---- steps that open nothing ----

  /** The window is untouched and the history only grows, or the process is a new one. */
  ghost predicate Calm(s: Sys, s': Sys, x: Side) {
    var e, e' := s.At(x), s'.At(x);
    e'.inc >= s.nextInc ||
    (&& e'.inc == e.inc && e'.view.replay == e.view.replay && e'.via == e.via
     && |e.hist| <= |e'.hist| && (forall i :: 0 <= i < |e.hist| ==> e'.hist[i] == e.hist[i]))
  }

  ghost predicate CalmBoth(s: Sys, s': Sys) {
    Calm(s, s', Left) && Calm(s, s', Right) && s'.openings == s.openings
  }

  lemma CalmKeepsGuarded(net: Net, s: Sys, s': Sys, o: Opening)
    requires Guarded(net, s, o) && Calm(s, s', o.to) && o.inc < s.nextInc
    ensures Guarded(net, s', o)
  {
    var e, e' := s.At(o.to), s'.At(o.to);
    if o.inc == e'.inc {
      var n: nat :| Barred(net, e, o, n);
      if |e'.hist| <= n + Kept(net, o.to) {
        var p: nat :| Guards(e, Kept(net, o.to), n, o.session, o.counter, p);
        assert Guards(e', Kept(net, o.to), n, o.session, o.counter, p);
      }
      assert Barred(net, e', o, n);
    }
  }

  lemma OpenerKnown(net: Net, s: Sys, k: nat)
    requires OpeningsInv(s) && k < |s.openings|
    ensures s.openings[k].inc < s.nextInc
  {
    assert OpeningInv(s, s.openings[k]);
  }

  lemma CalmKeepsOnce(net: Net, s: Sys, s': Sys)
    requires OnceInv(net, s) && OpeningsInv(s) && CalmBoth(s, s')
    ensures OnceInv(net, s')
  {
    forall k | 0 <= k < |s'.openings| ensures Guarded(net, s', s'.openings[k]) {
      OpenerKnown(net, s, k);
      CalmKeepsGuarded(net, s, s', s.openings[k]);
    }
  }

  lemma CalmRespond(net: Net, s: Sys, x: Side, asker: nat, key: nat, epoch: nat, now: nat)
    ensures var s' := RespondStep(net, s, x, asker, key, epoch, now).0;
            CalmBoth(s, s') && s'.At(Other(x)) == s.At(Other(x))
  {
  }

  lemma CalmAnswer(net: Net, s: Sys, x: Side, epoch: nat, now: nat)
    ensures CalmBoth(s, AnswerStep(net, s, x, epoch, now))
  {
    var asker := s.At(Other(x));
    if asker.exch.Asked? { CalmRespond(net, s, x, asker.inc, asker.exch.key, epoch, now); }
  }

  lemma CalmAnswerStray(net: Net, s: Sys, x: Side, stray: Stray, epoch: nat, now: nat)
    ensures CalmBoth(s, AnswerStrayStep(net, s, x, stray, epoch, now))
  {
    CalmRespond(net, s, x, stray.inc, stray.key, epoch, now);
  }

  lemma CalmLogs(s: Sys, s': Sys, x: Side, r: Record)
    requires Logs(s, s', x, r)
    ensures CalmBoth(s, s')
  {
  }

  lemma CalmEmit(net: Net, s: Sys, x: Side, keyId: Text, header: Entries, plain: Text)
    requires Inv(net, s)
    ensures CalmBoth(s, EmitStep(net, s, x, keyId, header, plain))
  {
    if Seals(net, s, x, keyId, header) {
      assert SideInv(net, s, x);
      Emitted(net, s, x, keyId, header, plain);
      CalmLogs(s, EmitStep(net, s, x, keyId, header, plain), x, Sealing(net, s, x, keyId, header, plain));
    } else {
      EmitQuiet(net, s, x, keyId, header, plain);
    }
  }

  lemma CalmAsk(net: Net, s: Sys, x: Side, now: nat)
    ensures CalmBoth(s, AskStep(net, s, x, now))
  {
  }

  lemma CalmFinish(net: Net, s: Sys, x: Side, now: nat)
    ensures CalmBoth(s, FinishStep(net, s, x, now))
  {
  }

  lemma CalmStop(net: Net, s: Sys, x: Side)
    ensures CalmBoth(s, GiveUpStep(s, x)) && CalmBoth(s, RestartStep(net, s, x))
  {
  }

  lemma CalmStep(net: Net, s: Sys, step: Step) returns (s': Sys)
    requires !step.Deliver? && Inv(net, s)
    ensures s' == Next(net, s, step) && CalmBoth(s, s')
  {
    if step.Emit? {
      CalmEmit(net, s, step.x, step.keyId, step.header, step.plain);
      s' := EmitStep(net, s, step.x, step.keyId, step.header, step.plain);
    } else {
      s' := CalmOther(net, s, step);
    }
  }

  lemma CalmOther(net: Net, s: Sys, step: Step) returns (s': Sys)
    requires !step.Deliver? && !step.Emit?
    ensures s' == Next(net, s, step) && CalmBoth(s, s')
  {
    match step
    case Ask(x, now) =>
      CalmAsk(net, s, x, now);
      s' := AskStep(net, s, x, now);
    case Answer(x, epoch, now) =>
      CalmAnswer(net, s, x, epoch, now);
      s' := AnswerStep(net, s, x, epoch, now);
    case AnswerStray(x, stray, epoch, now) =>
      CalmAnswerStray(net, s, x, stray, epoch, now);
      s' := AnswerStrayStep(net, s, x, stray, epoch, now);
    case Finish(x, now) =>
      CalmFinish(net, s, x, now);
      s' := FinishStep(net, s, x, now);
    case GiveUp(x) =>
      CalmStop(net, s, x);
      s' := GiveUpStep(s, x);
    case Restart(x) =>
      CalmStop(net, s, x);
      s' := RestartStep(net, s, x);
  }

  // ---- a verified frame ----

  /** Distinct sessions were adopted through distinct epochs. */
  lemma ViaDistinct(net: Net, s: Sys, x: Side)
    requires WindowInv(net, s, x)
    ensures NoDup(s.At(x).via)
  {
    var e := s.At(x);
    var q := Remembered(e.view.replay);
    forall i, j | 0 <= i < j < |e.via| ensures e.via[i] != e.via[j] {
      assert Adopted(s, x, q[i], e.via[i]) && Adopted(s, x, q[j], e.via[j]);
    }
  }

  /** With a full window, the guarded session is not the oldest. */
  lemma NotOldest(via: seq<nat>, m: nat, keep: nat, n: nat, p: nat)
    requires keep <= KEEP_LIMIT && NoDup(via + [m]) && |via| == REMEMBERED && Near(n, m, keep)
    requires forall i :: p + 1 < i < |via| ==> Near(n, via[i], keep)
    ensures p > 0
  {
    if p == 0 {
      var q: seq<int> := via[2..] + [m];
      assert forall i :: 0 <= i < 8 ==> q[i] == via[i + 2];
      assert forall i :: 0 <= i < 9 ==> q[i] == (via + [m])[i + 2];
      NeighboursBounded(q, n, keep);
    }
  }

  /** What the end looks like after a frame of session `session` passed the window. */
  ghost predicate Checked(e: End, e': End, session: nat, counter: nat, m: nat) {
    var w := e.view.replay;
    && e'.view.replay == CheckAndSet(w, session, counter).0 && e'.hist == e.hist && e'.inc == e.inc
    && e'.via == if Remembered(e'.view.replay) == Remembered(w) then e.via else Bounded(e.via + [m], REMEMBERED)
  }

  lemma GuardsAfterCheck(e: End, e': End, keep: nat, n: nat, o: Opening, p: nat, session: nat, counter: nat, m: nat)
    returns (p': nat)
    requires Guards(e, keep, n, o.session, o.counter, p) && o.counter > 0 && counter > 0
    requires keep <= KEEP_LIMIT && Sound(e.view.replay) && Checked(e, e', session, counter, m) && NoDup(e.via)
    requires session !in Remembered(e.view.replay) ==> Near(n, m, keep) && m !in e.via
    ensures Guards(e', keep, n, o.session, o.counter, p')
  {
    var w := e.view.replay;
    CheckRemembers(w, session, counter);
    RefusedStaysRefused(w, o.session, o.counter, session, counter);
    p' := PlaceAfter(Remembered(w), Remembered(e'.view.replay), e.via, e'.via, keep, n, p, session, m);
  }

  /** The place of a guarded session after a check, by the lists alone. */
  lemma PlaceAfter(q: seq<nat>, q': seq<nat>, via: seq<nat>, via': seq<nat>, keep: nat, n: nat, p: nat, session: nat, m: nat)
    returns (p': nat)
    requires |via| == |q| <= REMEMBERED && p < |q| && NoDup(via) && keep <= KEEP_LIMIT
    requires q' == if session in q then q else Bounded(q + [session], REMEMBERED)
    requires via' == if q' == q then via else Bounded(via + [m], REMEMBERED)
    requires forall i :: p + 1 < i < |q| ==> Near(n, via[i], keep)
    requires session !in q ==> Near(n, m, keep) && m !in via
    ensures |via'| == |q'| && p' < |q'| && q'[p'] == q[p] && forall i :: p' + 1 < i < |q'| ==> Near(n, via'[i], keep)
  {
    p' := p;
    if session !in q {
      assert q'[|q'| - 1] == session;
      assert q' != q;
      if |q| == REMEMBERED {
        NotOldest(via, m, keep, n, p);
        p' := p - 1;
      }
    }
  }

  /** An accepted frame's session is the current or the previous one afterwards. */
  lemma AcceptedPlace(w: Window, session: nat, counter: nat) returns (p: nat)
    requires Sound(w) && Accepts(w, session, counter)
    ensures var q := Remembered(CheckAndSet(w, session, counter).0); p < |q| <= p + 2 && q[p] == session
  {
    var w' := CheckAndSet(w, session, counter).0;
    CheckRemembers(w, session, counter);
    var q := Remembered(w');
    p := if w.prev.Some? && w.prev.value.id == session then |w'.retired| else |q| - 1;
  }

  lemma GuardsNew(e: End, e': End, keep: nat, n: nat, session: nat, counter: nat, m: nat) returns (p: nat)
    requires Sound(e.view.replay) && Accepts(e.view.replay, session, counter) && |e.via| == |Remembered(e.view.replay)|
    requires Checked(e, e', session, counter, m)
    ensures Guards(e', keep, n, session, counter, p)
  {
    p := AcceptedPlace(e.view.replay, session, counter);
    AcceptedThenRefused(e.view.replay, session, counter);
    CheckRemembers(e.view.replay, session, counter);
  }

  lemma OpenerRecord(net: Net, s: Sys, k: nat) returns (j: nat)
    requires OpeningsInv(s) && LogInv(net, s) && k < |s.openings|
    ensures j < |s.log| && Opens(s, s.openings[k], s.log[j]) && RecordInv(net, s, s.log[j])
  {
    assert OpeningInv(s, s.openings[k]);
    j :| 0 <= j < |s.log| && Opens(s, s.openings[k], s.log[j]);
  }

  /** The epoch of a verified frame is near every other one held, unless its session is known. */
  lemma NewSessionNear(net: Net, s: Sys, x: Side, r: Record, m: nat, o: Opening, n: nat)
    requires SideInv(net, s, x) && RecordInv(net, s, r) && r.from == Other(x)
    requires m < |s.At(x).hist| <= m + Kept(net, x) && s.At(x).hist[m].0 == r.epoch
    requires n < |s.At(x).hist| <= n + Kept(net, x) && s.At(x).hist[n].0 == o.epoch
    requires o.epoch in s.births && s.births[o.epoch].Party(Other(x)) == o.session
    requires o.session in Remembered(s.At(x).view.replay)
    ensures r.inc !in Remembered(s.At(x).view.replay) ==> Near(n, m, Kept(net, x)) && m !in s.At(x).via
  {
    var e := s.At(x);
    var q := Remembered(e.view.replay);
    forall i | 0 <= i < |q| ensures e.via[i] == m ==> q[i] == r.inc {
      assert Adopted(s, x, q[i], e.via[i]);
    }
  }

  lemma OldStaysGuarded(net: Net, s: Sys, e': End, x: Side, r: Record, m: nat, k: nat)
    requires Inv(net, s) && k < |s.openings| && Guarded(net, s, s.openings[k]) && Kept(net, x) <= KEEP_LIMIT
    requires RecordInv(net, s, r) && r.from == Other(x) && Checked(s.At(x), e', r.inc, r.counter, m)
    requires m < |s.At(x).hist| <= m + Kept(net, x) && s.At(x).hist[m].0 == r.epoch
    requires s.openings[k].to == x && s.openings[k].inc == s.At(x).inc
    ensures exists n: nat :: Barred(net, e', s.openings[k], n)
  {
    var e, o := s.At(x), s.openings[k];
    var j := OpenerRecord(net, s, k);
    assert SideInv(net, s, x);
    ViaDistinct(net, s, x);
    var n: nat :| Barred(net, e, o, n);
    if |e.hist| <= n + Kept(net, x) {
      var p: nat :| Guards(e, Kept(net, x), n, o.session, o.counter, p);
      assert Remembered(e.view.replay)[p] == o.session;
      NewSessionNear(net, s, x, r, m, o, n);
      var p' := GuardsAfterCheck(e, e', Kept(net, x), n, o, p, r.inc, r.counter, m);
    }
    assert Barred(net, e', o, n);
  }

  /** A frame opened before is not accepted again. */
  lemma OpenedIsRefused(net: Net, s: Sys, x: Side, i: nat, m: nat, k: nat)
    requires Inv(net, s) && k < |s.openings| && Guarded(net, s, s.openings[k]) && i < |s.log|
    requires s.log[i].from == Other(x) && m < |s.At(x).hist| <= m + Kept(net, x) && s.At(x).hist[m].0 == s.log[i].epoch
    requires s.openings[k].session == s.log[i].inc && s.openings[k].counter == s.log[i].counter
    ensures !Accepts(s.At(x).view.replay, s.log[i].inc, s.log[i].counter)
  {
    var e, o, r := s.At(x), s.openings[k], s.log[i];
    var j := OpenerRecord(net, s, k);
    assert j == i;
    assert SideInv(net, s, x) && Assigned(s, x, e.inc, e.hist[m]);
    var n: nat :| Barred(net, e, o, n);
    assert n == m;
    var p: nat :| Guards(e, Kept(net, x), n, o.session, o.counter, p);
  }

  lemma PassesChecked(net: Net, s: Sys, s': Sys, x: Side, f: Frame, r: Record) returns (m: nat)
    requires EndInv(net, s, x) && f.Complete() && Passes(s, s', x, f) && Presents(s, x, f, r)
    ensures m < |s.At(x).hist| <= m + Kept(net, x) && s.At(x).hist[m].0 == r.epoch
    ensures Checked(s.At(x), s'.At(x), r.inc, r.counter, m)
  {
    m := FoundSecret(net, s, x, r.epoch);
  }

  lemma NewIsGuarded(net: Net, s: Sys, e': End, x: Side, o: Opening, m: nat)
    requires WindowInv(net, s, x) && Accepts(s.At(x).view.replay, o.session, o.counter)
    requires Checked(s.At(x), e', o.session, o.counter, m) && o.to == x
    requires m < |s.At(x).hist| && s.At(x).hist[m].0 == o.epoch
    ensures exists n: nat :: Barred(net, e', o, n)
  {
    var p := GuardsNew(s.At(x), e', Kept(net, x), m, o.session, o.counter, m);
    assert Barred(net, e', o, m);
  }

  lemma PassedOld(net: Net, s: Sys, s': Sys, x: Side, r: Record, m: nat, k: nat)
    requires Inv(net, s) && k < |s.openings| && Guarded(net, s, s.openings[k]) && Kept(net, x) <= KEEP_LIMIT
    requires RecordInv(net, s, r) && r.from == Other(x) && Checked(s.At(x), s'.At(x), r.inc, r.counter, m)
    requires m < |s.At(x).hist| <= m + Kept(net, x) && s.At(x).hist[m].0 == r.epoch
    requires s'.At(Other(x)) == s.At(Other(x))
    ensures Guarded(net, s', s.openings[k])
  {
    var o := s.openings[k];
    if o.to == x && o.inc == s.At(x).inc { OldStaysGuarded(net, s, s'.At(x), x, r, m, k); }
  }

  /** What a verified frame adds to the openings, if anything. */
  lemma PassedNew(s: Sys, s': Sys, x: Side, f: Frame, r: Record)
    requires f.Complete() && Passes(s, s', x, f) && Presents(s, x, f, r)
    ensures s'.At(Other(x)) == s.At(Other(x))
    ensures s'.openings == s.openings ||
            (&& s'.openings == s.openings + [f.OpenedBy(x, s.At(x).inc)]
             && Accepts(s.At(x).view.replay, r.inc, r.counter))
  {
  }

  lemma PassedKeepsGuarded(net: Net, s: Sys, s': Sys, x: Side, f: Frame, r: Record, m: nat)
    requires Inv(net, s) && AllGuarded(net, s, s.openings) && Kept(net, x) <= KEEP_LIMIT && RecordInv(net, s, r)
    requires f.Complete() && Passes(s, s', x, f) && Presents(s, x, f, r)
    requires m < |s.At(x).hist| <= m + Kept(net, x) && s.At(x).hist[m].0 == r.epoch
    requires Checked(s.At(x), s'.At(x), r.inc, r.counter, m)
    ensures AllGuarded(net, s', s'.openings)
  {
    PassedNew(s, s', x, f, r);
    OldAllGuarded(net, s, s', x, r, m);
    if s'.openings != s.openings {
      NewGuarded(net, s, s', x, f, r, m);
      GuardedMore(net, s', s.openings, f.OpenedBy(x, s.At(x).inc));
    }
  }

  lemma GuardedMore(net: Net, s: Sys, q: seq<Opening>, o: Opening)
    requires AllGuarded(net, s, q) && Guarded(net, s, o)
    ensures AllGuarded(net, s, q + [o])
  {
    forall k | 0 <= k < |q + [o]| ensures Guarded(net, s, (q + [o])[k]) {
      if k < |q| { assert Guarded(net, s, q[k]); }
    }
  }

  lemma OldAllGuarded(net: Net, s: Sys, s': Sys, x: Side, r: Record, m: nat)
    requires Inv(net, s) && AllGuarded(net, s, s.openings) && Kept(net, x) <= KEEP_LIMIT && RecordInv(net, s, r) && r.from == Other(x)
    requires m < |s.At(x).hist| <= m + Kept(net, x) && s.At(x).hist[m].0 == r.epoch
    requires Checked(s.At(x), s'.At(x), r.inc, r.counter, m) && s'.At(Other(x)) == s.At(Other(x))
    ensures AllGuarded(net, s', s.openings)
  {
    forall k | 0 <= k < |s.openings| ensures Guarded(net, s', s.openings[k]) {
      assert Guarded(net, s, s.openings[k]);
      PassedOld(net, s, s', x, r, m, k);
    }
  }

  lemma NewGuarded(net: Net, s: Sys, s': Sys, x: Side, f: Frame, r: Record, m: nat)
    requires Inv(net, s) && f.Complete() && Presents(s, x, f, r) && Accepts(s.At(x).view.replay, r.inc, r.counter)
    requires m < |s.At(x).hist| && s.At(x).hist[m].0 == r.epoch && Checked(s.At(x), s'.At(x), r.inc, r.counter, m)
    ensures Guarded(net, s', f.OpenedBy(x, s.At(x).inc))
  {
    assert SideInv(net, s, x);
    NewIsGuarded(net, s, s'.At(x), x, f.OpenedBy(x, s.At(x).inc), m);
  }

  lemma AcceptedIsNew(net: Net, s: Sys, x: Side, i: nat, m: nat, k: nat)
    requires Inv(net, s) && k < |s.openings| && Guarded(net, s, s.openings[k]) && i < |s.log|
    requires s.log[i].from == Other(x) && m < |s.At(x).hist| <= m + Kept(net, x) && s.At(x).hist[m].0 == s.log[i].epoch
    requires Accepts(s.At(x).view.replay, s.log[i].inc, s.log[i].counter)
    ensures s.openings[k].session != s.log[i].inc || s.openings[k].counter != s.log[i].counter
  {
    if s.openings[k].session == s.log[i].inc && s.openings[k].counter == s.log[i].counter {
      OpenedIsRefused(net, s, x, i, m, k);
    }
  }

  lemma AppendDistinct(q: seq<Opening>, o: Opening)
    requires DistinctPairs(q) && forall k :: 0 <= k < |q| ==> q[k].session != o.session || q[k].counter != o.counter
    ensures DistinctPairs(q + [o])
  {
  }

  lemma PassedKeepsDistinct(net: Net, s: Sys, s': Sys, x: Side, f: Frame, i: nat, m: nat)
    requires Inv(net, s) && OnceInv(net, s) && i < |s.log|
    requires f.Complete() && Passes(s, s', x, f) && Presents(s, x, f, s.log[i])
    requires m < |s.At(x).hist| <= m + Kept(net, x) && s.At(x).hist[m].0 == s.log[i].epoch
    ensures DistinctPairs(s'.openings)
  {
    PassedNew(s, s', x, f, s.log[i]);
    if s'.openings != s.openings {
      forall k | 0 <= k < |s.openings|
        ensures s.openings[k].session != s.log[i].inc || s.openings[k].counter != s.log[i].counter
      {
        assert Guarded(net, s, s.openings[k]);
        AcceptedIsNew(net, s, x, i, m, k);
      }
      AppendDistinct(s.openings, f.OpenedBy(x, s.At(x).inc));
    }
  }

  lemma PassedKeepsOnce(net: Net, s: Sys, s': Sys, x: Side, f: Frame, i: nat)
    requires Inv(net, s) && OnceInv(net, s) && Kept(net, x) <= KEEP_LIMIT && i < |s.log|
    requires f.Complete() && Passes(s, s', x, f) && Presents(s, x, f, s.log[i])
    ensures OnceInv(net, s')
  {
    assert SideInv(net, s, x) && RecordInv(net, s, s.log[i]);
    var m := PassesChecked(net, s, s', x, f, s.log[i]);
    PassedKeepsGuarded(net, s, s', x, f, s.log[i], m);
    PassedKeepsDistinct(net, s, s', x, f, i, m);
  }

  lemma DeliverKeepsOnce(net: Net, s: Sys, x: Side, f: Frame) returns (s': Sys)
    requires net.WellFormed() && Inv(net, s) && OnceInv(net, s) && Kept(net, x) <= KEEP_LIMIT
    ensures s' == DeliverStep(net, s, x, f) && OnceInv(net, s')
  {
    s' := DeliverStep(net, s, x, f);
    if !Presentable(s, f) || !Verifies(net, s, x, f) {
      RefusedQuiet(net, s, x, f);
    } else {
      Delivered(net, s, x, f);
      var i := Origin(net, s, x, f);
      PassedKeepsOnce(net, s, s', x, f, i);
    }
  }

  // ---- runs ----

  lemma {:induction false} RunKeepsOnce(net: Net, steps: seq<Step>)
    requires net.WellFormed() && Kept(net, Left) <= KEEP_LIMIT && Kept(net, Right) <= KEEP_LIMIT
    ensures OnceInv(net, Run(net, steps))
  {
    if steps != [] {
      var before, step := steps[..|steps| - 1], steps[|steps| - 1];
      RunKeepsOnce(net, before);
      RunKeepsInv(net, before);
      var s := Run(net, before);
      if step.Deliver? {
        var s' := DeliverKeepsOnce(net, s, step.x, step.frame);
        assert Next(net, s, step) == s';
      } else {
        var s' := CalmStep(net, s, step);
        CalmKeepsOnce(net, s, s');
      }
    }
  }

  /** A tag belongs to one sealed frame. */
  lemma TagDetermines(net: Net, s: Sys, a: Record, b: Record)
    requires net.WellFormed() && RecordInv(net, s, a) && RecordInv(net, s, b) && a.sealed.tag == b.sealed.tag
    ensures a.inc == b.inc && a.counter == b.counter
  {
    AadInjective(net.Id(a.from), net.Id(Other(a.from)), a.sealed.header, net.Id(b.from), net.Id(Other(b.from)), b.sealed.header);
    assert HDR_E2E_CTR[4] != HDR_E2E_TAG[4] && HDR_INCARNATION[0] != HDR_E2E_TAG[0];
    RemoveLookup(a.sealed.header, HDR_E2E_TAG, HDR_E2E_CTR);
    RemoveLookup(b.sealed.header, HDR_E2E_TAG, HDR_E2E_CTR);
    RemoveLookup(a.sealed.header, HDR_E2E_TAG, HDR_INCARNATION);
    RemoveLookup(b.sealed.header, HDR_E2E_TAG, HDR_INCARNATION);
  }

  /**
   No frame is opened twice, in any run: not after restarts of either end, nor after the
   window has forgotten the frame's session, as long as neither end keeps more than five
   epochs.
   */
  lemma OpenedOnce(net: Net, steps: seq<Step>, k: nat, l: nat)
    requires net.WellFormed() && net.leftCfg.keep <= KEEP_LIMIT && net.rightCfg.keep <= KEEP_LIMIT
    requires k < l < |Run(net, steps).openings|
    ensures Run(net, steps).openings[k].tag != Run(net, steps).openings[l].tag
  {
    var s := Run(net, steps);
    RunKeepsInv(net, steps);
    RunKeepsOnce(net, steps);
    var i := OpenerRecord(net, s, k);
    var j := OpenerRecord(net, s, l);
    if s.openings[k].tag == s.openings[l].tag { TagDetermines(net, s, s.log[i], s.log[j]); }
  }
}
