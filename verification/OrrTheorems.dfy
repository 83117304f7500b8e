/** What bootstrap and rotation guarantee over every run, and exactly when. */
module OrrTheorems {
  import opened Wrappers
  import opened Symbolic
  import opened OrrRegistry
  import opened OrrProtocol
  import opened OrrInvariant

  /** At most one establishment is in flight, and the flag is set exactly while one is. */
  lemma OneEstablishment(keeps: Keeps, steps: seq<Step>)
    ensures var s := Run(keeps, steps);
            && (forall t, u :: HolderAt(s, t) && HolderAt(s, u) ==> t == u)
            && (s.i.inflight <==> exists t :: HolderAt(s, t))
  {
    RunKeepsInv(keeps, steps);
  }

  /** When no establishment is in flight, the last one succeeded and its secret was not cleared
      since, the ends agree exactly when the responder still has the key that was used. */
  lemma BootstrapAgrees(keeps: Keeps, steps: seq<Step>)
    ensures var s := Run(keeps, steps);
            s.lastOk && s.i.boot.Some? && (forall t :: HolderAt(s, t) ==> !s.tasks[t].Establishing?) ==>
              s.i.boot.value.Shared? && (s.i.boot == s.r.boot <==> s.i.boot.value.key == s.rKey)
  {
    RunKeepsInv(keeps, steps);
  }

  ghost predicate FreshFrom(g: Reg, secret: Secret) {
    g.boot == Some(secret) && g.masters == map[0 := secret] && g.esks == map[] && g.send == None
  }

  /** An establishment that succeeds leaves only epoch 0 at the initiator, and the same at the
      responder exactly when it did not restart since the key was fetched. */
  lemma EstablishmentResets(keeps: Keeps, steps: seq<Step>, t: nat)
    requires var s := Run(keeps, steps); HolderAt(s, t) && s.tasks[t].Establishing? && s.tasks[t].landed
    ensures var s := Run(keeps, steps); var s' := Next(keeps, s, Return(t, false)); var ct := s.tasks[t].ct;
            && FreshFrom(s'.i, SharedBy(ct)) && !s'.i.inflight
            && (FreshFrom(s'.r, SharedBy(ct)) <==> ct.key == s'.rKey)
  {
    RunKeepsInv(keeps, steps);
    var s := Run(keeps, steps);
    assert TaskInv(s, s.tasks[t]);
  }

  // ---- which epoch each end sends with ----

  /** `send_epoch_for`. */
  ghost predicate SendsWith(g: Reg, e: nat) {
    if g.send.Some? then e == g.send.value else IsLatest(g, e)
  }

  ghost predicate BothHave(s: Pair, e: nat) {
    e in s.i.masters && e in s.r.masters && s.i.masters[e] == s.r.masters[e]
  }

  /** The confirmation in flight has reached the responder. */
  ghost predicate FinLanded(s: Pair) {
    exists t :: HolderAt(s, t) && s.tasks[t].Confirming? && s.tasks[t].confirmed.Some?
  }

  /** The initiator sends with an epoch the responder has, with the same secret, except before
      its first confirmation, between storing epoch 1 and the responder installing it. */
  lemma InitiatorSendEpoch(keeps: Keeps, steps: seq<Step>, e: nat)
    requires var s := Run(keeps, steps); Synced(s) && SendsWith(s.i, e)
    ensures var s := Run(keeps, steps); BothHave(s, e) <==> s.i.send.Some? || !Confirms(s) || FinLanded(s)
  {
    var s := Run(keeps, steps);
    RunKeepsInv(keeps, steps);
    if Confirms(s) {
      var t :| HolderAt(s, t) && s.tasks[t].Confirming?;
      assert TaskInv(s, s.tasks[t]);
      assert FinLanded(s) <==> s.tasks[t].confirmed.Some?;
    }
  }

  /** The responder sends with an epoch the initiator has, with the same secret, exactly when
      that epoch is confirmed or its confirmation is on the way back. */
  lemma ResponderSendEpoch(keeps: Keeps, steps: seq<Step>, e: nat)
    requires var s := Run(keeps, steps); Synced(s) && SendsWith(s.r, e)
    ensures var s := Run(keeps, steps); BothHave(s, e) <==> e == Confirmed(s.i) || FinLanded(s)
  {
    var s := Run(keeps, steps);
    RunKeepsInv(keeps, steps);
    if Confirms(s) {
      var t :| HolderAt(s, t) && s.tasks[t].Confirming?;
      assert TaskInv(s, s.tasks[t]);
      assert FinLanded(s) <==> s.tasks[t].confirmed.Some?;
    }
  }

  // ---- rounds without loss ----

  /** The first half of a rotation without loss: ask for a key and act on the reply. */
  ghost function Asked(keeps: Keeps, s: Pair, t: nat): Pair {
    ReturnStep(keeps, LandStep(keeps, StartRotationStep(s, t), t), t, false)
  }

  /** A whole rotation, whose last reply may be lost. */
  ghost function Rotated(keeps: Keeps, s: Pair, t: nat, lost: bool): Pair {
    ReturnStep(keeps, LandStep(keeps, Asked(keeps, s, t), t), t, lost)
  }

  /** A rotation that is refused and bootstraps again with the key it fetches. */
  ghost function Rebootstrapped(keeps: Keeps, s: Pair, t: nat): Pair {
    ReturnStep(keeps, LandStep(keeps, RefetchStep(Asked(keeps, s, t), t, s.rKey), t), t, false)
  }

  /** A rotation can start: there is a bootstrap secret and nothing in flight. */
  ghost predicate Startable(s: Pair, t: nat) {
    Inv(s) && !s.i.inflight && s.i.boot.Some? && t !in s.tasks
  }

  lemma AskLands(keeps: Keeps, s: Pair, t: nat)
    requires Startable(s, t) && Synced(s)
    ensures var l := LandStep(keeps, StartRotationStep(s, t), t); var e := Confirmed(s.i) + 1;
            && Inv(l) && l == s.(i := l.i, r := l.r, tasks := l.tasks, nextKey := s.nextKey + 1)
            && l.i == s.i.(inflight := true) && l.r == s.r.(esks := l.r.esks)
            && l.tasks == s.tasks[t := Asking(s.i.boot.value, e, Some(Ok(s.nextKey)))]
  {
    StartRotationKeepsInv(s, t);
    LandKeepsInv(keeps, StartRotationStep(s, t), t);
    AskLandsAt(keeps, s, t);
  }

  lemma AskLandsAt(keeps: Keeps, s: Pair, t: nat)
    requires !s.i.inflight && t !in s.tasks && s.i.boot.Some? && s.i.boot == s.r.boot
    ensures var l := LandStep(keeps, StartRotationStep(s, t), t); var e := Confirmed(s.i) + 1;
            && l == s.(i := l.i, r := l.r, tasks := l.tasks, nextKey := s.nextKey + 1)
            && l.i == s.i.(inflight := true) && l.r == s.r.(esks := l.r.esks)
            && l.tasks == s.tasks[t := Asking(s.i.boot.value, e, Some(Ok(s.nextKey)))]
  {
  }

  /** A responder that knows the bootstrap secret hands out a key; the initiator stores the
      next epoch and asks to have it confirmed. */
  lemma AskedSynced(keeps: Keeps, s: Pair, t: nat)
    requires Startable(s, t) && Synced(s)
    ensures var a := Asked(keeps, s, t); var e := Confirmed(s.i) + 1;
            && Inv(a) && Synced(a) && HolderAt(a, t)
            && a.tasks[t] == Confirming(s.i.boot.value, e, KemCiphertext(s.nextKey, s.nextCoin), None)
            && a.i.masters == s.i.masters[e := Shared(s.nextKey, s.nextCoin)] && a.i.send == s.i.send
            && a.r.masters == s.r.masters
  {
    AskLands(keeps, s, t);
    var l := LandStep(keeps, StartRotationStep(s, t), t);
    ReturnKeepsInv(keeps, l, t, false);
    AskReturns(keeps, l, t, s.i.boot.value, Confirmed(s.i) + 1, s.nextKey);
  }

  lemma AskReturns(keeps: Keeps, l: Pair, t: nat, boot: Secret, epoch: nat, epk: nat)
    requires t in l.tasks && l.tasks[t] == Asking(boot, epoch, Some(Ok(epk)))
    ensures var a := ReturnStep(keeps, l, t, false); var ct := KemCiphertext(epk, l.nextCoin);
            a == l.(i := WithMaster(l.i, epoch, SharedBy(ct)), nextCoin := l.nextCoin + 1, tasks := l.tasks[t := Confirming(boot, epoch, ct, None)])
  {
  }

  /** A responder that does not is bootstrapped again. */
  lemma AskedUnsynced(keeps: Keeps, s: Pair, t: nat)
    requires Startable(s, t) && !Synced(s)
    ensures var a := Asked(keeps, s, t);
            Inv(a) && a.tasks == s.tasks[t := Refetching(Rotating)] && a.rKey == s.rKey && a.rKeys == s.rKeys
  {
    StartRotationKeepsInv(s, t);
    LandKeepsInv(keeps, StartRotationStep(s, t), t);
    ReturnKeepsInv(keeps, LandStep(keeps, StartRotationStep(s, t), t), t, false);
    AskRefusedAt(keeps, s, t);
  }

  lemma AskRefusedAt(keeps: Keeps, s: Pair, t: nat)
    requires !s.i.inflight && t !in s.tasks && s.i.boot.Some? && s.i.boot != s.r.boot
    ensures var a := Asked(keeps, s, t); a.tasks == s.tasks[t := Refetching(Rotating)] && a.rKey == s.rKey && a.rKeys == s.rKeys
  {
  }

  /** The confirmation lands: the responder sends with the new epoch from then on. */
  lemma ConfirmationLands(keeps: Keeps, a: Pair, t: nat)
    requires Inv(a) && Synced(a) && HolderAt(a, t) && a.tasks[t].Confirming? && a.tasks[t].confirmed.None?
    ensures var l, e := LandStep(keeps, a, t), a.tasks[t].epoch;
            && Inv(l) && Synced(l) && l.i == a.i && HolderAt(l, t)
            && l.tasks[t].Confirming? && l.tasks[t].epoch == e && l.tasks[t].confirmed.Some? && l.tasks[t].confirmed.value.Ok?
            && SendsWith(l.r, e) && e == Confirmed(l.i) + 1 && BothHave(l, e)
  {
    var k := a.tasks[t];
    assert TaskInv(a, k);
    LandConfirming(keeps, a, t);
    Installed(a, k.boot, k.epoch, k.ct, keeps.responder);
    var l := LandStep(keeps, a, t);
    assert l.r == EstablishEphemeral(a.r, k.boot, k.epoch, k.ct, keeps.responder).0;
    assert TaskInv(l, l.tasks[t]);
  }

  lemma ConfirmationLost(keeps: Keeps, l: Pair, t: nat)
    requires HolderAt(l, t) && l.tasks[t].Confirming?
    ensures var b := ReturnStep(keeps, l, t, true);
            b.r == l.r && b.i.boot == l.i.boot && l.tasks[t].epoch !in b.i.masters
  {
  }

  lemma ConfirmationReturns(keeps: Keeps, l: Pair, t: nat)
    requires Inv(l) && HolderAt(l, t) && l.tasks[t].Confirming? && l.tasks[t].confirmed.Some? && l.tasks[t].confirmed.value.Ok?
    requires BothHave(l, l.tasks[t].epoch)
    ensures var b, e := ReturnStep(keeps, l, t, false), l.tasks[t].epoch;
            b.r == l.r && b.i.boot == l.i.boot && !b.i.inflight && SendsWith(b.i, e) && BothHave(b, e)
  {
    assert TaskInv(l, l.tasks[t]);
    CommittedMasters(l.i, l.tasks[t].epoch, keeps.initiator);
  }

  /** The first rotation after every bootstrap, before its confirmation lands: the initiator
      sends with an epoch that the responder does not have, or has with another secret. */
  lemma FirstRotationSendsProvisional(keeps: Keeps, s: Pair, t: nat)
    requires Startable(s, t) && Synced(s) && s.i.send.None?
    ensures SendsWith(Asked(keeps, s, t).i, 1) && !BothHave(Asked(keeps, s, t), 1)
  {
    AskedSynced(keeps, s, t);
    assert TaskInv(Asked(keeps, s, t), Asked(keeps, s, t).tasks[t]);
  }

  /** The responder sends with an epoch the initiator does not have. */
  ghost predicate Orphaned(s: Pair, e: nat) { Synced(s) && SendsWith(s.r, e) && e !in s.i.masters }

  /** A confirmation whose reply is lost leaves the responder sending with an epoch the
      initiator has withdrawn. */
  lemma {:induction false} LostConfirmationOrphans(keeps: Keeps, s: Pair, t: nat, e: nat)
    requires Startable(s, t) && Synced(s) && e == Confirmed(s.i) + 1
    ensures Orphaned(Rotated(keeps, s, t, true), e)
  {
    AskedSynced(keeps, s, t);
    LostAt(keeps, Asked(keeps, s, t), t);
  }

  lemma LostAt(keeps: Keeps, a: Pair, t: nat)
    requires Inv(a) && Synced(a) && HolderAt(a, t) && a.tasks[t].Confirming? && a.tasks[t].confirmed.None?
    ensures Orphaned(ReturnStep(keeps, LandStep(keeps, a, t), t, true), a.tasks[t].epoch)
  {
    ConfirmationLands(keeps, a, t);
    ConfirmationLost(keeps, LandStep(keeps, a, t), t);
  }

  /** From any state where the ends agree, a rotation without loss commits the next epoch, with
      which both then send. */
  lemma RotationCommits(keeps: Keeps, s: Pair, t: nat)
    requires Startable(s, t) && Synced(s)
    ensures var b := Rotated(keeps, s, t, false); var e := Confirmed(s.i) + 1;
            Synced(b) && !b.i.inflight && SendsWith(b.i, e) && SendsWith(b.r, e) && BothHave(b, e)
  {
    AskedSynced(keeps, s, t);
    ConfirmationLands(keeps, Asked(keeps, s, t), t);
    ConfirmationReturns(keeps, LandStep(keeps, Asked(keeps, s, t), t), t);
  }

  /** From any state where they do not, it bootstraps again, and they do. */
  lemma RotationRebootstraps(keeps: Keeps, s: Pair, t: nat)
    requires Startable(s, t) && !Synced(s)
    ensures var b := Rebootstrapped(keeps, s, t);
            Synced(b) && !b.i.inflight && t !in b.tasks && Confirmed(b.i) == 0 && SendsWith(b.i, 0) && SendsWith(b.r, 0) && BothHave(b, 0)
  {
    AskedUnsynced(keeps, s, t);
    Reestablished(keeps, Asked(keeps, s, t), t);
  }

  lemma Reestablished(keeps: Keeps, a: Pair, t: nat)
    requires Inv(a) && t in a.tasks && a.tasks[t] == Refetching(Rotating)
    ensures var b := ReturnStep(keeps, LandStep(keeps, RefetchStep(a, t, a.rKey), t), t, false);
            Synced(b) && !b.i.inflight && t !in b.tasks && Confirmed(b.i) == 0 && SendsWith(b.i, 0) && SendsWith(b.r, 0) && BothHave(b, 0)
  {
  }

  // ---- the two exceptions are reached ----

  lemma RunSnoc(keeps: Keeps, steps: seq<Step>, step: Step)
    ensures Run(keeps, steps + [step]) == Next(keeps, Run(keeps, steps), step)
  {
    assert (steps + [step])[..|steps|] == steps;
  }

  const FIRST_ASKED: Pair := INITIAL.(i := EMPTY.(pk := Some(0)))
  const FIRST_CT: KemCiphertext := KemCiphertext(0, 0)

  /** The bootstrap loop of an initiator that has the responder's key. */
  lemma FirstSteps(keeps: Keeps)
    ensures Next(keeps, INITIAL, PutPk(0)) == FIRST_ASKED
    ensures Next(keeps, FIRST_ASKED, SpawnBoot(0)) == FIRST_ASKED.(tasks := map[0 := Waiting(0)])
    ensures AttemptStep(FIRST_ASKED.(tasks := map[0 := Waiting(0)]), 0) ==
            FIRST_ASKED.(i := FIRST_ASKED.i.(inflight := true), nextCoin := 1, tasks := map[0 := Establishing(Booting(0), FIRST_CT, false)])
  {
    assert map[0 := Waiting(0)][0 := Establishing(Booting(0), FIRST_CT, false)] == map[0 := Establishing(Booting(0), FIRST_CT, false)];
  }

  /** The first bootstrap, up to the remote call. */
  lemma FirstAttempt(keeps: Keeps) returns (steps: seq<Step>)
    ensures Run(keeps, steps) ==
            FIRST_ASKED.(i := FIRST_ASKED.i.(inflight := true), nextCoin := 1, tasks := map[0 := Establishing(Booting(0), FIRST_CT, false)])
  {
    FirstSteps(keeps);
    var a: seq<Step> := [];
    RunSnoc(keeps, a, PutPk(0));
    var b := a + [PutPk(0)];
    RunSnoc(keeps, b, SpawnBoot(0));
    var c := b + [SpawnBoot(0)];
    RunSnoc(keeps, c, Attempt(0));
    steps := c + [Attempt(0)];
  }

  /** The first bootstrap without loss. */
  lemma FirstBootstrap(keeps: Keeps) returns (steps: seq<Step>)
    ensures var s := Run(keeps, steps); Startable(s, 1) && Synced(s) && s.i.send.None?
  {
    var first := FirstAttempt(keeps);
    RunSnoc(keeps, first, Land(0));
    RunSnoc(keeps, first + [Land(0)], Return(0, false));
    steps := first + [Land(0)] + [Return(0, false)];
    RunKeepsInv(keeps, steps);
  }

  lemma {:induction false} RunAsks(keeps: Keeps, steps: seq<Step>, t: nat)
    ensures Run(keeps, steps + [StartRotation(t)] + [Land(t)] + [Return(t, false)]) == Asked(keeps, Run(keeps, steps), t)
  {
    var a := steps + [StartRotation(t)];
    RunSnoc(keeps, steps, StartRotation(t));
    RunSnoc(keeps, a, Land(t));
    RunSnoc(keeps, a + [Land(t)], Return(t, false));
  }

  lemma {:induction false} RunRotates(keeps: Keeps, steps: seq<Step>, t: nat, lost: bool)
    ensures Run(keeps, steps + [StartRotation(t)] + [Land(t)] + [Return(t, false)] + [Land(t)] + [Return(t, lost)])
            == Rotated(keeps, Run(keeps, steps), t, lost)
  {
    var asked := steps + [StartRotation(t)] + [Land(t)] + [Return(t, false)];
    RunAsks(keeps, steps, t);
    RunSnoc(keeps, asked, Land(t));
    RunSnoc(keeps, asked + [Land(t)], Return(t, lost));
  }

  /** A run from the initial state after which the initiator sends with an epoch the responder
      does not have. */
  lemma ProvisionalReached(keeps: Keeps) returns (steps: seq<Step>)
    ensures SendsWith(Run(keeps, steps).i, 1) && !BothHave(Run(keeps, steps), 1)
  {
    var boot := FirstBootstrap(keeps);
    FirstRotationSendsProvisional(keeps, Run(keeps, boot), 1);
    RunAsks(keeps, boot, 1);
    steps := boot + [StartRotation(1)] + [Land(1)] + [Return(1, false)];
  }

  /** And one after which the responder sends with an epoch the initiator has withdrawn. */
  lemma OrphanReached(keeps: Keeps) returns (steps: seq<Step>)
    ensures Orphaned(Run(keeps, steps), 1)
  {
    var boot := FirstBootstrap(keeps);
    LostConfirmationOrphans(keeps, Run(keeps, boot), 1, 1);
    RunRotates(keeps, boot, 1, true);
    steps := boot + [StartRotation(1)] + [Land(1)] + [Return(1, false)] + [Land(1)] + [Return(1, true)];
  }

  // ---- one-shot keys, and what a passive re-bootstrap forgets ----

  /** A confirmation uses up the ephemeral key: it is taken once, and the next one for the epoch
      finds no key, unless another one was asked for. */
  lemma EphemeralOnce(r: Reg, boot: Secret, epoch: nat, ct: KemCiphertext, keep: nat, ct': KemCiphertext)
    requires EstablishEphemeral(r, boot, epoch, ct, keep).1.Ok?
    ensures var r' := EstablishEphemeral(r, boot, epoch, ct, keep).0;
            epoch in r.esks && epoch !in r'.esks && EstablishEphemeral(r', boot, epoch, ct', keep).1 == Err(NoKey)
  {
    var g := WithMaster(r.(esks := r.esks - {epoch}), epoch, Decap(r.esks[epoch], ct));
    PrunedExactly(g, keep);
  }

  ghost predicate PassiveTask(k: Task) { (k.Refetching? && k.kind.Passive?) || (k.Establishing? && k.kind.Passive?) }

  ghost predicate Blank(g: Reg) { g.boot == None && g.masters == map[] && g.esks == map[] && g.send == None }

  ghost predicate Forgets(s: Pair) { forall t :: t in s.tasks && PassiveTask(s.tasks[t]) ==> Blank(s.i) }

  lemma PassiveHolds(s: Pair, t: nat)
    requires t in s.tasks && PassiveTask(s.tasks[t])
    ensures HolderAt(s, t)
  {
  }

  /** While there is one, it holds the flag. */
  lemma OthersWait(s: Pair, t: nat, u: nat)
    requires Exclusive(s) && u in s.tasks && PassiveTask(s.tasks[u]) && t in s.tasks && t != u
    ensures s.tasks[t].Waiting? && s.i.inflight
  {
    PassiveHolds(s, u);
    assert !HolderAt(s, t);
  }

  lemma ReturnForgets(keeps: Keeps, s: Pair, t: nat, lost: bool)
    requires Exclusive(s) && Forgets(s)
    ensures Forgets(ReturnStep(keeps, s, t, lost))
  {
    var s' := ReturnStep(keeps, s, t, lost);
    forall u | u in s'.tasks && PassiveTask(s'.tasks[u]) ensures Blank(s'.i) {
      if t in s.tasks && t != u { OthersWait(s, t, u); }
    }
  }

  lemma LandForgets(keeps: Keeps, s: Pair, t: nat)
    requires Forgets(s)
    ensures Forgets(LandStep(keeps, s, t))
  {
    var s' := LandStep(keeps, s, t);
    forall u | u in s'.tasks && PassiveTask(s'.tasks[u]) ensures Blank(s'.i) {
      assert u in s.tasks && PassiveTask(s.tasks[u]) && s'.i == s.i;
    }
  }

  lemma FlagForgets(s: Pair, s': Pair, t: nat)
    requires Exclusive(s) && !s.i.inflight && forall u :: u in s'.tasks && u != t ==> u in s.tasks && s'.tasks[u] == s.tasks[u]
    requires t in s'.tasks && PassiveTask(s'.tasks[t]) ==> Blank(s'.i)
    ensures Forgets(s')
  {
    forall u | u in s'.tasks && PassiveTask(s'.tasks[u]) && u != t ensures false { PassiveHolds(s, u); }
  }

  lemma QuietForgets(keeps: Keeps, s: Pair, step: Step)
    requires Exclusive(s) && Forgets(s)
    requires step.PutPk? || step.SpawnBoot? || step.Attempt? || step.Refetch? || step.RefetchFail? || step.RestartInitiator? || step.RestartResponder?
    ensures Forgets(Next(keeps, s, step))
  {
    var s' := Next(keeps, s, step);
    forall u | u in s'.tasks && PassiveTask(s'.tasks[u]) ensures Blank(s'.i) {
      assert u in s.tasks && PassiveTask(s.tasks[u]);
      PassiveHolds(s, u);
    }
  }

  lemma StepForgets(keeps: Keeps, s: Pair, step: Step)
    requires Exclusive(s) && Forgets(s)
    ensures Forgets(Next(keeps, s, step))
  {
    match step
    case Return(t, lost) => ReturnForgets(keeps, s, t, lost);
    case Land(t) => LandForgets(keeps, s, t);
    case StartRotation(t) => if Next(keeps, s, step) != s { FlagForgets(s, StartRotationStep(s, t), t); }
    case StartPassive(t) => if Next(keeps, s, step) != s { FlagForgets(s, StartPassiveStep(s, t), t); }
    case _ => QuietForgets(keeps, s, step);
  }

  /** Over every run, from its start to its end a passive re-bootstrap leaves the initiator
      without any secret of the peer, so that nothing is sent under one that may be stale. */
  lemma {:induction false} PassiveForgets(keeps: Keeps, steps: seq<Step>)
    ensures Forgets(Run(keeps, steps))
  {
    if steps != [] {
      PassiveForgets(keeps, steps[..|steps| - 1]);
      RunKeepsInv(keeps, steps[..|steps| - 1]);
      StepForgets(keeps, Run(keeps, steps[..|steps| - 1]), steps[|steps| - 1]);
    }
  }
}
