/**
 When the receiver's window refuses the live process of the sender. With one epoch kept it
 never does: every session adopted after the live one took the newest epoch of the receiver,
 and at most one more epoch of an earlier process can still become that.
 */
module E2eMuted {
  import opened Wrappers
  import opened Bytes
  import opened Headers
  import opened ReplaySpec
  import opened E2eSpec
  import opened E2eProtocol
  import opened E2eInvariant
  import opened E2eFrames
  import opened E2eOnce

  /** The window of `x` refuses whatever the live process of the other end seals. */
  ghost predicate Mute(s: Sys, x: Side) {
    s.At(Other(x)).inc in s.At(x).view.replay.retired
  }

  // ---- what earlier processes can still deliver ----

  ghost predicate Sealed(s: Sys, z: Side, epoch: nat) {
    exists i :: 0 <= i < |s.log| && s.log[i].from == z && s.log[i].epoch == epoch
  }

  /** An earlier process of the other end sealed under the epoch. */
  ghost predicate Stale(s: Sys, x: Side, epoch: nat) {
    epoch in s.births && s.births[epoch].Party(Other(x)) != s.At(Other(x)).inc && Sealed(s, Other(x), epoch)
  }

  /** The newest epoch of `x` would adopt an earlier process. */
  ghost predicate NewestStale(s: Sys, x: Side) {
    var e := s.At(x);
    && e.hist != [] && Stale(s, x, e.hist[|e.hist| - 1].0)
    && s.births[e.hist[|e.hist| - 1].0].Party(Other(x)) !in Remembered(e.view.replay)
  }

  /** The answer `x` waits for would bring such an epoch. */
  ghost predicate AnswerStale(s: Sys, x: Side) {
    s.At(x).exch.Answered? && Stale(s, x, s.At(x).exch.resp.epoch)
  }

  /** How many earlier processes can still be adopted by `x` while the live one lives. */
  ghost function Due(s: Sys, x: Side): nat {
    (if NewestStale(s, x) then 1 else 0) + (if AnswerStale(s, x) then 1 else 0)
  }

  /** The sessions adopted after the live one and those still due are one at most. */
  ghost predicate Followed(s: Sys, x: Side) {
    var q := Remembered(s.At(x).view.replay);
    forall p :: 0 <= p < |q| && q[p] == s.At(Other(x)).inc ==> |q| - 1 - p + Due(s, x) <= 1
  }

  lemma FollowedNotMute(s: Sys, x: Side)
    requires Followed(s, x) && Sound(s.At(x).view.replay)
    ensures !Mute(s, x)
  {
    var w := s.At(x).view.replay;
    assert forall p :: 0 <= p < |w.retired| ==> w.retired[p] == Remembered(w)[p];
  }

  // ---- steps other than a delivery to `x` ----

  /** `x` keeps its window, both keep their processes, and nothing more becomes due. */
  ghost predicate Tame(s: Sys, s': Sys, x: Side) {
    && s'.At(Other(x)).inc == s.At(Other(x)).inc && s'.At(x).view.replay == s.At(x).view.replay
    && (NewestStale(s', x) ==> NewestStale(s, x) || (AnswerStale(s, x) && !AnswerStale(s', x)))
    && (AnswerStale(s', x) ==> AnswerStale(s, x))
  }

  lemma TameKeeps(s: Sys, s': Sys, x: Side)
    requires Followed(s, x) && Tame(s, s', x)
    ensures Followed(s', x)
  {
    assert Due(s', x) <= Due(s, x);
  }

  /** Epochs that are stale afterwards were so before. */
  ghost predicate NoneStaler(s: Sys, s': Sys, x: Side) {
    forall e :: Stale(s', x, e) ==> Stale(s, x, e)
  }

  /** Nothing was sealed under an epoch that was not assigned. */
  lemma SealedAssigned(net: Net, s: Sys, z: Side, epoch: nat)
    requires LogInv(net, s) && Sealed(s, z, epoch)
    ensures epoch in s.births
  {
    var i :| 0 <= i < |s.log| && s.log[i].from == z && s.log[i].epoch == epoch;
    assert RecordInv(net, s, s.log[i]);
  }

  lemma SameLogStale(net: Net, s: Sys, s': Sys, x: Side)
    requires LogInv(net, s) && s'.log == s.log && s'.At(Other(x)).inc == s.At(Other(x)).inc
    requires forall e :: e in s.births ==> e in s'.births && s'.births[e] == s.births[e]
    ensures NoneStaler(s, s', x)
  {
    forall e | Stale(s', x, e) ensures Stale(s, x, e) {
      assert Sealed(s, Other(x), e);
      SealedAssigned(net, s, Other(x), e);
    }
  }

  /** The end `x` after a step: same newest epoch and same answer, or ones that are not stale,
      or the answer has become the newest epoch. */
  ghost predicate EndTame(s: Sys, s': Sys, x: Side) {
    var e, e' := s.At(x), s'.At(x);
    && (e'.hist == e.hist || (e'.hist != [] && !Stale(s', x, e'.hist[|e'.hist| - 1].0))
        || (e.exch.Answered? && !e'.exch.Answered? && e'.hist != [] && e'.hist[|e'.hist| - 1].0 == e.exch.resp.epoch))
    && (e'.exch.Answered? ==> e'.exch == e.exch || !Stale(s', x, e'.exch.resp.epoch))
  }

  lemma EndTameTame(s: Sys, s': Sys, x: Side)
    requires NoneStaler(s, s', x) && EndTame(s, s', x)
    requires s'.At(Other(x)).inc == s.At(Other(x)).inc && s'.At(x).view.replay == s.At(x).view.replay
    requires forall e :: e in s.births ==> e in s'.births && s'.births[e] == s.births[e]
    ensures Tame(s, s', x)
  {
  }

  /** An epoch number not assigned before is not stale now. */
  lemma FreshNotStale(net: Net, s: Sys, s': Sys, x: Side, epoch: nat)
    requires LogInv(net, s) && s'.log == s.log && epoch !in s.births
    ensures !Stale(s', x, epoch)
  {
    if Sealed(s, Other(x), epoch) { SealedAssigned(net, s, Other(x), epoch); }
    assert Sealed(s', Other(x), epoch) ==> Sealed(s, Other(x), epoch);
  }

  lemma AskTame(net: Net, s: Sys, c: Side, now: nat, x: Side)
    requires LogInv(net, s)
    ensures Tame(s, AskStep(net, s, c, now), x)
  {
    var s' := AskStep(net, s, c, now);
    SameLogStale(net, s, s', x);
    EndTameTame(s, s', x);
  }

  lemma FinishTame(net: Net, s: Sys, c: Side, now: nat, x: Side)
    requires LogInv(net, s)
    ensures Tame(s, FinishStep(net, s, c, now), x)
  {
    var s' := FinishStep(net, s, c, now);
    SameLogStale(net, s, s', x);
    EndTameTame(s, s', x);
  }

  lemma GiveUpTame(net: Net, s: Sys, c: Side, x: Side)
    requires LogInv(net, s)
    ensures Tame(s, GiveUpStep(s, c), x)
  {
    var s' := GiveUpStep(s, c);
    SameLogStale(net, s, s', x);
    EndTameTame(s, s', x);
  }

  /** What a response changes at `x`, as far as it matters here. */
  lemma RespondShape(net: Net, s: Sys, c: Side, asker: nat, key: nat, epoch: nat, now: nat, x: Side)
    requires epoch !in s.births
    ensures var (s', r) := RespondStep(net, s, c, asker, key, epoch, now); var e, e' := s.At(x), s'.At(x);
            && s'.log == s.log && e'.inc == e.inc && e'.view.replay == e.view.replay && e'.exch == e.exch
            && (forall b :: b in s.births ==> b in s'.births && s'.births[b] == s.births[b])
            && (e'.hist == e.hist || (e'.hist != [] && e'.hist[|e'.hist| - 1].0 == epoch))
            && (r.Some? ==> r.value.epoch == epoch)
  {
  }

  lemma AnswerTame(net: Net, s: Sys, c: Side, epoch: nat, now: nat, x: Side)
    requires LogInv(net, s)
    ensures Tame(s, AnswerStep(net, s, c, epoch, now), x)
  {
    var s', a := AnswerStep(net, s, c, epoch, now), s.At(Other(c));
    if a.exch.Asked? && Drawable(s, epoch) {
      RespondShape(net, s, c, a.inc, a.exch.key, epoch, now, x);
      RespondShape(net, s, c, a.inc, a.exch.key, epoch, now, Other(x));
      SameLogStale(net, s, s', x);
      FreshNotStale(net, s, s', x, epoch);
      AnsweredEnd(net, s, c, epoch, now, x);
      EndTameTame(s, s', x);
    } else {
      SameLogStale(net, s, s, x);
      EndTameTame(s, s, x);
    }
  }

  lemma AnsweredEnd(net: Net, s: Sys, c: Side, epoch: nat, now: nat, x: Side)
    requires s.At(Other(c)).exch.Asked? && Drawable(s, epoch) && !Stale(AnswerStep(net, s, c, epoch, now), x, epoch)
    ensures var s' := AnswerStep(net, s, c, epoch, now);
            EndTame(s, s', x) && s'.At(Other(x)).inc == s.At(Other(x)).inc && s'.At(x).view.replay == s.At(x).view.replay
  {
  }

  lemma StrayTame(net: Net, s: Sys, c: Side, stray: Stray, epoch: nat, now: nat, x: Side)
    requires LogInv(net, s)
    ensures Tame(s, AnswerStrayStep(net, s, c, stray, epoch, now), x)
  {
    var s' := AnswerStrayStep(net, s, c, stray, epoch, now);
    if stray in s.stray && stray.asker != c && Drawable(s, epoch) {
      RespondShape(net, s, c, stray.inc, stray.key, epoch, now, x);
      RespondShape(net, s, c, stray.inc, stray.key, epoch, now, Other(x));
      SameLogStale(net, s, s', x);
      FreshNotStale(net, s, s', x, epoch);
      EndTameTame(s, s', x);
    } else {
      SameLogStale(net, s, s, x);
      EndTameTame(s, s, x);
    }
  }

  /** What the live process seals makes nothing stale. */
  lemma LogsTame(net: Net, s: Sys, s': Sys, c: Side, r: Record, x: Side)
    requires Logs(s, s', c, r) && RecordInv(net, s', r) && r.from == c && r.inc == s.At(c).inc
    ensures Tame(s, s', x)
  {
    forall e | Stale(s', x, e) ensures Stale(s, x, e) {
      var i :| 0 <= i < |s'.log| && s'.log[i].from == Other(x) && s'.log[i].epoch == e;
      assert s'.log[i] == if i < |s.log| then s.log[i] else r;
    }
    EndTameTame(s, s', x);
  }

  lemma EmitTame(net: Net, s: Sys, c: Side, keyId: Text, header: Entries, plain: Text, x: Side)
    requires Inv(net, s)
    ensures Tame(s, EmitStep(net, s, c, keyId, header, plain), x)
  {
    if Seals(net, s, c, keyId, header) {
      var s', r := EmitStep(net, s, c, keyId, header, plain), Sealing(net, s, c, keyId, header, plain);
      assert SideInv(net, s, c);
      Emitted(net, s, c, keyId, header, plain);
      SealingInv(net, s, s', c, keyId, header, plain);
      LogsTame(net, s, s', c, r, x);
    } else {
      EmitQuiet(net, s, c, keyId, header, plain);
      SameLogStale(net, s, s, x);
      EndTameTame(s, s, x);
    }
  }

  /** A restart of either end leaves nothing to follow. */
  lemma RestartFollowed(net: Net, s: Sys, c: Side, x: Side)
    requires WindowInv(net, s, x)
    ensures Followed(RestartStep(net, s, c), x)
  {
    var s' := RestartStep(net, s, c);
    var q := Remembered(s'.At(x).view.replay);
    if c == x {
      assert q == [];
    } else {
      forall p | 0 <= p < |q| ensures q[p] != s'.At(Other(x)).inc { assert Adopted(s, x, q[p], s.At(x).via[p]); }
    }
  }

  // ---- a delivery ----

  /** What a verified frame does to the sessions. */
  lemma CheckedSessions(net: Net, s: Sys, s': Sys, x: Side, f: Frame, r: Record)
    requires f.Complete() && Passes(s, s', x, f) && Presents(s, x, f, r) && r.counter > 0 && Sound(s.At(x).view.replay)
    ensures var q := Remembered(s.At(x).view.replay);
            Remembered(s'.At(x).view.replay) == if r.inc in q then q else Bounded(q + [r.inc], REMEMBERED)
    ensures s'.births == s.births && s'.log == s.log && s'.At(Other(x)) == s.At(Other(x))
    ensures s'.At(x).hist == s.At(x).hist && s'.At(x).exch == s.At(x).exch
  {
    CheckRemembers(s.At(x).view.replay, r.inc, r.counter);
  }

  /** With one epoch kept, what verifies was sealed under the newest. */
  lemma NewestUsed(net: Net, s: Sys, x: Side, r: Record)
    requires EndInv(net, s, x) && Kept(net, x) == 1 && SecretFor(s.At(x).view.epochs, r.epoch) == Some(r.secret)
    ensures s.At(x).hist != [] && s.At(x).hist[|s.At(x).hist| - 1].0 == r.epoch
  {
    var i := FoundSecret(net, s, x, r.epoch);
  }

  /** The sessions after an adoption: all move one place away from the end. */
  lemma AdoptionPlaces(q: seq<nat>, session: nat, live: nat, due: nat, due': nat)
    requires session !in q && |q| <= REMEMBERED && NoDup(q)
    requires forall p :: 0 <= p < |q| && q[p] == live ==> |q| - 1 - p + due <= 1
    requires if session == live then due' <= 1 else due' + 1 <= due
    ensures var q' := Bounded(q + [session], REMEMBERED); forall p :: 0 <= p < |q'| && q'[p] == live ==> |q'| - 1 - p + due' <= 1
  {
    var q' := Bounded(q + [session], REMEMBERED);
    var d := |q| + 1 - |q'|;
    assert forall p :: 0 <= p < |q'| ==> q'[p] == (q + [session])[p + d];
  }

  lemma StaleSame(s: Sys, s': Sys, x: Side, e: nat)
    requires s'.births == s.births && s'.log == s.log && s'.At(Other(x)) == s.At(Other(x))
    ensures Stale(s', x, e) <==> Stale(s, x, e)
  {
    assert Sealed(s', Other(x), e) <==> Sealed(s, Other(x), e);
  }

  lemma DueAfter(net: Net, s: Sys, s': Sys, x: Side, r: Record, i: nat)
    requires RecordInv(net, s, r) && r.from == Other(x) && i < |s.log| && s.log[i] == r
    requires s.At(x).hist != [] && s.At(x).hist[|s.At(x).hist| - 1].0 == r.epoch
    requires s'.births == s.births && s'.log == s.log && s'.At(Other(x)) == s.At(Other(x))
    requires s'.At(x).hist == s.At(x).hist && s'.At(x).exch == s.At(x).exch
    requires r.inc !in Remembered(s.At(x).view.replay) && r.inc in Remembered(s'.At(x).view.replay)
    ensures if r.inc == s.At(Other(x)).inc then Due(s', x) <= 1 else Due(s', x) + 1 <= Due(s, x)
  {
    assert Sealed(s, Other(x), r.epoch);
    StaleSame(s, s', x, r.epoch);
    if s.At(x).exch.Answered? { StaleSame(s, s', x, s.At(x).exch.resp.epoch); }
  }

  lemma DueSame(s: Sys, s': Sys, x: Side)
    requires s'.births == s.births && s'.log == s.log && s'.At(Other(x)) == s.At(Other(x))
    requires s'.At(x).hist == s.At(x).hist && s'.At(x).exch == s.At(x).exch
    requires Remembered(s'.At(x).view.replay) == Remembered(s.At(x).view.replay)
    ensures Due(s', x) == Due(s, x)
  {
    if s.At(x).hist != [] { StaleSame(s, s', x, s.At(x).hist[|s.At(x).hist| - 1].0); }
    if s.At(x).exch.Answered? { StaleSame(s, s', x, s.At(x).exch.resp.epoch); }
  }

  lemma PassedFollowed(net: Net, s: Sys, s': Sys, x: Side, f: Frame, i: nat)
    requires SideInv(net, s, x) && Kept(net, x) == 1 && i < |s.log| && RecordInv(net, s, s.log[i]) && Followed(s, x)
    requires f.Complete() && Passes(s, s', x, f) && Presents(s, x, f, s.log[i])
    ensures Followed(s', x)
  {
    var r, q := s.log[i], Remembered(s.At(x).view.replay);
    NewestUsed(net, s, x, r);
    CheckedSessions(net, s, s', x, f, r);
    if r.inc in q {
      DueSame(s, s', x);
    } else {
      assert (q + [r.inc])[|q|] == r.inc;
      DueAfter(net, s, s', x, r, i);
      AdoptionPlaces(q, r.inc, s.At(Other(x)).inc, Due(s, x), Due(s', x));
    }
  }

  /** A delivery to the other end changes nothing here. */
  lemma PassedElsewhere(net: Net, s: Sys, s': Sys, c: Side, f: Frame, x: Side)
    requires LogInv(net, s) && c != x && f.Complete() && Passes(s, s', c, f)
    ensures Tame(s, s', x)
  {
    SameLogStale(net, s, s', x);
    EndTameTame(s, s', x);
  }

  lemma DeliverFollowed(net: Net, s: Sys, c: Side, f: Frame, x: Side)
    requires net.WellFormed() && Inv(net, s) && Kept(net, x) == 1 && Followed(s, x)
    ensures Followed(DeliverStep(net, s, c, f), x)
  {
    if !Presentable(s, f) || !Verifies(net, s, c, f) {
      RefusedQuiet(net, s, c, f);
    } else {
      var s' := DeliverStep(net, s, c, f);
      Delivered(net, s, c, f);
      if c == x {
        var i := Origin(net, s, c, f);
        assert SideInv(net, s, x) && RecordInv(net, s, s.log[i]);
        PassedFollowed(net, s, s', x, f, i);
      } else {
        PassedElsewhere(net, s, s', c, f, x);
        TameKeeps(s, s', x);
      }
    }
  }

  // ---- runs ----

  lemma TameStep(net: Net, s: Sys, step: Step, x: Side) returns (s': Sys)
    requires !step.Deliver? && !step.Restart? && Inv(net, s)
    ensures s' == Next(net, s, step) && Tame(s, s', x)
  {
    match step
    case Ask(c, now) =>
      AskTame(net, s, c, now, x);
      s' := AskStep(net, s, c, now);
    case Answer(c, epoch, now) =>
      AnswerTame(net, s, c, epoch, now, x);
      s' := AnswerStep(net, s, c, epoch, now);
    case AnswerStray(c, stray, epoch, now) =>
      StrayTame(net, s, c, stray, epoch, now, x);
      s' := AnswerStrayStep(net, s, c, stray, epoch, now);
    case Finish(c, now) =>
      FinishTame(net, s, c, now, x);
      s' := FinishStep(net, s, c, now);
    case GiveUp(c) =>
      GiveUpTame(net, s, c, x);
      s' := GiveUpStep(s, c);
    case Emit(c, keyId, header, plain) =>
      EmitTame(net, s, c, keyId, header, plain, x);
      s' := EmitStep(net, s, c, keyId, header, plain);
  }

  lemma StepFollowed(net: Net, s: Sys, step: Step, x: Side)
    requires net.WellFormed() && Inv(net, s) && Kept(net, x) == 1 && Followed(s, x)
    ensures Followed(Next(net, s, step), x)
  {
    if step.Deliver? {
      DeliverFollowed(net, s, step.x, step.frame, x);
    } else if step.Restart? {
      assert SideInv(net, s, x);
      RestartFollowed(net, s, step.x, x);
    } else {
      var s' := TameStep(net, s, step, x);
      TameKeeps(s, s', x);
    }
  }

  lemma {:induction false} RunFollowed(net: Net, steps: seq<Step>, x: Side)
    requires net.WellFormed() && Kept(net, x) == 1
    ensures Followed(Run(net, steps), x)
  {
    if steps != [] {
      RunFollowed(net, steps[..|steps| - 1], x);
      RunKeepsInv(net, steps[..|steps| - 1]);
      StepFollowed(net, Run(net, steps[..|steps| - 1]), steps[|steps| - 1], x);
    }
  }

  /** An end that keeps one epoch never refuses the live process of the other, in any run. */
  lemma NeverMute(net: Net, steps: seq<Step>, x: Side)
    requires net.WellFormed() && net.CfgOf(x).keep <= 1
    ensures !Mute(Run(net, steps), x)
  {
    RunFollowed(net, steps, x);
    RunKeepsInv(net, steps);
    assert SideInv(net, Run(net, steps), x);
    FollowedNotMute(Run(net, steps), x);
  }
}
