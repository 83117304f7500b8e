/**
 The bound in `E2eMuted` is exact: an end that keeps two epochs or more can come to refuse the
 live process of the other end. Three processes of the sender follow one another. The second
 has answered a request of the receiver before it went; the answer is taken up late. So the
 receiver hears the live process first, then a late frame of the first, then, with the epoch
 of that answer, one of the second, and its window retires the live process.
 */
module E2eMuting {
  import opened Wrappers
  import opened ReplaySpec
  import opened E2eSpec
  import opened E2eProtocol
  import opened E2eInvariant
  import opened E2eFrames
  import opened E2eTheorems
  import opened E2eOnce
  import opened E2eRounds
  import opened E2eMuted
  import C = E2eCrossing
  import T = E2eTwice

  // ---- a round in which the receiver asks and does not yet finish ----

  ghost function Asked(net: Net, s: Sys, x: Side, m: nat): Sys {
    var z, t := Other(x), 2000 * (m + 1);
    AnswerStep(net, AskStep(net, RestartStep(net, s, z), x, t), z, m + 1, t)
  }

  /** `x` waits to take up the answer with the epoch of round `m`. */
  ghost predicate Waits(net: Net, e: End, x: Side, epoch: nat, since: nat) {
    && e.exch.Answered? && e.view.pending.Some? && e.view.pending.value.1 == since
    && e.exch.resp.epoch == epoch && e.exch.resp.suite == net.CfgOf(x).suite && e.exch.resp.ct.Some?
  }

  ghost predicate NeverAsked(e: End) { !e.view.inflight && e.view.lastAttempt.None? }

  lemma AskedAgrees(net: Net, s: Sys, x: Side, m: nat, h: seq<nat>)
    requires net.leftCfg.suite == net.rightCfg.suite && Stage(s, x, m, h) && m < 12 && NeverAsked(s.At(x))
    ensures var d := Asked(net, s, x, m);
            && Renewed(d.At(Other(x)), m) && Surrounded(s, d, x, m) && d.At(x).hist == s.At(x).hist
            && Waits(net, d.At(x), x, m + 1, 2000 * (m + 1))
  {
    var z, t := Other(x), 2000 * (m + 1);
    var a := RestartStep(net, s, z);
    assert a.At(x) == s.At(x) && a.At(z) == NewEnd(net.CfgOf(z), 2 + m);
    Asks(net, a, x, t);
    var b := AskStep(net, a, x, t);
    assert b.At(z) == a.At(z);
    AnswerTime(net, b, z, m + 1, t);
    Answers(net, b, z, m + 1, t);
  }

  function AskedSteps(x: Side, m: nat): seq<Step>
    requires m < 12
  {
    var z, t := Other(x), 2000 * (m + 1);
    [Restart(z)] + [Ask(x, t)] + [Answer(z, m + 1, t)] + [SealStep(x, m)]
  }

  lemma AfterAsked(net: Net, s: Sys, x: Side, m: nat)
    requires m < 12
    ensures var z, t := Other(x), 2000 * (m + 1);
            After(net, s, [Restart(z)] + [Ask(x, t)] + [Answer(z, m + 1, t)]) == Asked(net, s, x, m)
    ensures After(net, s, AskedSteps(x, m)) == EmitStep(net, Asked(net, s, x, m), Other(x), KEY_ID, HeaderFor(2 + m), [])
  {
    var z, t := Other(x), 2000 * (m + 1);
    var a := RestartStep(net, s, z);
    AfterConcat(net, s, [Restart(z)] + [Ask(x, t)] + [Answer(z, m + 1, t)], [SealStep(x, m)]);
    AfterConcat(net, s, [Restart(z)] + [Ask(x, t)], [Answer(z, m + 1, t)]);
    AfterConcat(net, s, [Restart(z)], [Ask(x, t)]);
    AfterOne(net, s, Restart(z));
    AfterOne(net, a, Ask(x, t));
    AfterOne(net, AskStep(net, a, x, t), Answer(z, m + 1, t));
    AfterOne(net, Asked(net, s, x, m), SealStep(x, m));
  }

  lemma AskedRound(net: Net, s: Sys, x: Side, m: nat, h: seq<nat>)
    requires net.WellFormed() && net.leftCfg.suite == net.rightCfg.suite && Inv(net, s) && Stage(s, x, m, h) && m < 12
    requires NeverAsked(s.At(x))
    ensures var s' := After(net, s, AskedSteps(x, m));
            && Stage(s', x, m + 1, h) && Unnoticed(s, s', x, m) && Waits(net, s'.At(x), x, m + 1, 2000 * (m + 1))
  {
    var z, t, d := Other(x), 2000 * (m + 1), Asked(net, s, x, m);
    AfterAsked(net, s, x, m);
    AfterKeepsInv(net, s, [Restart(z)] + [Ask(x, t)] + [Answer(z, m + 1, t)]);
    SideOf(net, d, z);
    AskedAgrees(net, s, x, m, h);
    RoundEmits(net, s, d, x, m, h, h);
  }

  /** The receiver takes up the answer. */
  lemma LateFinish(net: Net, s: Sys, x: Side, m: nat, h: seq<nat>, epoch: nat, since: nat, t: nat)
    requires Stage(s, x, m, h) && Waits(net, s.At(x), x, epoch, since) && epoch != 0 && Elapsed(t, since) <= PENDING_ESK_TTL
    ensures var s' := FinishStep(net, s, x, t);
            Stage(s', x, m, h + [epoch]) && s'.At(x).view.replay == s.At(x).view.replay && s'.log == s.log
  {
    Finishes(net, s, x, t);
    var e, e' := s.At(x), FinishStep(net, s, x, t).At(x);
    forall i | 0 <= i < |h + [epoch]| ensures e'.hist[i].0 == (h + [epoch])[i] {
      if i < |h| { assert e'.hist[..|h|][i] == e'.hist[i]; }
    }
  }

  // ---- the run ----

  /** After some steps: `m` rounds, the stored epochs and the remembered sessions. */
  ghost predicate Scene(s: Sys, x: Side, m: nat, h: seq<nat>, q: seq<nat>) {
    Stage(s, x, m, h) && Remembered(s.At(x).view.replay) == q
  }

  lemma SceneRound(net: Net, steps: seq<Step>, x: Side, m: nat, h: seq<nat>, q: seq<nat>) returns (steps': seq<Step>)
    requires net.WellFormed() && net.leftCfg.suite == net.rightCfg.suite && Scene(Run(net, steps), x, m, h, q) && m < 12
    ensures var s, s' := Run(net, steps), Run(net, steps');
            Scene(s', x, m + 1, h + [m + 1], q) && s'.At(x).exch == s.At(x).exch && SameAsking(s.At(x).view, s'.At(x).view)
  {
    steps' := AddRound(net, steps, x, m, h);
  }

  lemma SceneAsked(net: Net, steps: seq<Step>, x: Side, m: nat, h: seq<nat>, q: seq<nat>) returns (steps': seq<Step>)
    requires net.WellFormed() && net.leftCfg.suite == net.rightCfg.suite && Scene(Run(net, steps), x, m, h, q) && m < 12
    requires NeverAsked(Run(net, steps).At(x))
    ensures Scene(Run(net, steps'), x, m + 1, h, q) && Waits(net, Run(net, steps').At(x), x, m + 1, 2000 * (m + 1))
  {
    RunKeepsInv(net, steps);
    AskedRound(net, Run(net, steps), x, m, h);
    steps' := steps + AskedSteps(x, m);
    AfterConcat(net, Init(net), steps, AskedSteps(x, m));
  }

  lemma SceneDelivery(net: Net, steps: seq<Step>, x: Side, m: nat, h: seq<nat>, q: seq<nat>, j: nat, k: nat) returns (steps': seq<Step>)
    requires net.WellFormed() && Scene(Run(net, steps), x, m, h, q) && j < m && HeldAt(net, x, h, j, k) && 2 + j !in q && |q| < REMEMBERED
    ensures var s, s' := Run(net, steps), Run(net, steps');
            Scene(s', x, m, h, q + [2 + j]) && s'.At(x).exch == s.At(x).exch && SameAsking(s.At(x).view, s'.At(x).view)
  {
    var s := Run(net, steps);
    RunSides(net, steps, x, j);
    DeliverLogged(net, s, x, m, h, j, k);
    steps' := AddDelivery(net, steps, x, FrameFor(s.log[j]));
  }

  lemma SceneFinish(net: Net, steps: seq<Step>, x: Side, m: nat, h: seq<nat>, q: seq<nat>, epoch: nat, since: nat, t: nat)
    returns (steps': seq<Step>)
    requires Scene(Run(net, steps), x, m, h, q) && Waits(net, Run(net, steps).At(x), x, epoch, since)
    requires epoch != 0 && Elapsed(t, since) <= PENDING_ESK_TTL
    ensures Scene(Run(net, steps'), x, m, h + [epoch], q)
  {
    LateFinish(net, Run(net, steps), x, m, h, epoch, since, t);
    steps' := steps + [Finish(x, t)];
    AfterConcat(net, Init(net), steps, [Finish(x, t)]);
    AfterOne(net, Run(net, steps), Finish(x, t));
  }

  /** The first three rounds. */
  lemma ThreeProcesses(net: Net, x: Side) returns (steps: seq<Step>)
    requires net.WellFormed() && net.leftCfg.suite == net.rightCfg.suite
    ensures Scene(Run(net, steps), x, 3, [1, 3], []) && Waits(net, Run(net, steps).At(x), x, 2, 4000)
  {
    steps := [];
    assert Scene(Run(net, steps), x, 0, [], []) && NeverAsked(Run(net, steps).At(x));
    steps := SceneRound(net, steps, x, 0, [], []);
    assert [] + [1] == [1];
    steps := SceneAsked(net, steps, x, 1, [1], []);
    steps := SceneRound(net, steps, x, 2, [1], []);
    assert [1] + [3] == [1, 3];
  }

  /** The live process heard, and then the first. */
  lemma LiveThenFirst(net: Net, x: Side) returns (steps: seq<Step>)
    requires net.WellFormed() && net.leftCfg.suite == net.rightCfg.suite && Kept(net, x) >= 2
    ensures Scene(Run(net, steps), x, 3, [1, 3], [4, 2]) && Waits(net, Run(net, steps).At(x), x, 2, 4000)
  {
    steps := ThreeProcesses(net, x);
    steps := SceneDelivery(net, steps, x, 3, [1, 3], [], 2, 1);
    assert [] + [4] == [4];
    steps := SceneDelivery(net, steps, x, 3, [1, 3], [4], 0, 0);
    assert [4] + [2] == [4, 2];
  }

  lemma ThreeRemembered(w: Window)
    requires Sound(w) && |Remembered(w)| == 3
    ensures w.retired == [Remembered(w)[0]]
  {
  }

  lemma ComesToMute(net: Net, x: Side) returns (steps: seq<Step>)
    requires net.WellFormed() && net.leftCfg.suite == net.rightCfg.suite && Kept(net, x) >= 2
    ensures Scene(Run(net, steps), x, 3, [1, 3, 2], [4, 2, 3]) && Mute(Run(net, steps), x)
  {
    steps := LiveThenFirst(net, x);
    steps := SceneFinish(net, steps, x, 3, [1, 3], [4, 2], 2, 4000, 6000);
    assert [1, 3] + [2] == [1, 3, 2];
    steps := SceneDelivery(net, steps, x, 3, [1, 3, 2], [4, 2], 1, 2);
    assert [4, 2] + [3] == [4, 2, 3];
    RunSides(net, steps, x, 0);
    ThreeRemembered(Run(net, steps).At(x).view.replay);
  }

  // ---- an agreement does not help ----

  /** An agreement asked for by the sender leaves the window and the processes as they are. */
  lemma StaysMute(net: Net, s: Sys, x: Side, c: Side, p: C.Plan)
    requires net.WellFormed() && Inv(net, s) && Mute(s, x)
    ensures Mute(After(net, s, C.ThreeSteps(c, p)), x)
  {
    var todo := C.ThreeSteps(c, p);
    C.AfterThree(net, s, c, p);
    var a := TameStep(net, s, todo[0], x);
    NextKeepsInv(net, s, todo[0]);
    var b := TameStep(net, a, todo[1], x);
    NextKeepsInv(net, a, todo[1]);
    var d := TameStep(net, b, todo[2], x);
  }

  function Later(t: Option<nat>): nat { if t.Some? then t.value + AGREEMENT_MIN_INTERVAL else 0 }

  /** The next agreement the sender can ask for. */
  ghost function NextPlan(s: Sys, x: Side): C.Plan {
    var t := Later(s.At(Other(x)).view.lastAttempt);
    C.Plan(4, t, Later(s.At(x).view.lastResponse), t)
  }

  lemma NextReady(net: Net, s: Sys, x: Side, h: seq<nat>)
    requires Stage(s, x, 3, h)
    ensures C.Ready(net, s, Other(x), NextPlan(s, x))
  {
  }

  /** What the sender is left with. */
  lemma SenderAfter(net: Net, s: Sys, x: Side, h: seq<nat>)
    requires net.leftCfg.suite == net.rightCfg.suite && Stage(s, x, 3, h)
    ensures var e := After(net, s, C.ThreeSteps(Other(x), NextPlan(s, x))).At(Other(x));
            e.inc == 4 && e.hist != [] && e.view.recent == [] && e.view.counter <= 1 && e.view.sendEpoch == Some(4)
  {
    var z, p := Other(x), NextPlan(s, x);
    C.AfterThree(net, s, z, p);
    Asks(net, s, z, p.ask);
    var a := AskStep(net, s, z, p.ask);
    Answers(net, a, x, 4, p.answer);
    Finishes(net, AnswerStep(net, a, x, 4, p.answer), z, p.finish);
  }

  lemma CanSeal(net: Net, s: Sys, z: Side)
    requires var e := s.At(z); e.inc == 4 && e.hist != [] && e.view.recent == [] && e.view.counter <= 1 && e.view.sendEpoch == Some(4)
    ensures Seals(net, s, z, KEY_ID, HeaderFor(4))
  {
    HeaderNames(4);
    DecimalFits(4);
    DecimalFits(s.At(z).view.counter + 1);
    SealedFits(HeaderFor(4), 4, s.At(z).view.counter + 1);
  }

  /**
   An end that keeps two epochs or more: there is a run, and one more agreement after it
   without loss, such that what the live process of the other end then seals verifies and is
   refused all the same.
   */
  lemma UnheardAfterAgreement(net: Net, x: Side) returns (steps: seq<Step>, p: C.Plan, f: Frame)
    requires net.WellFormed() && net.leftCfg.suite == net.rightCfg.suite && net.CfgOf(x).keep >= 2
    ensures C.Ready(net, Run(net, steps), Other(x), p)
    ensures var s := After(net, Run(net, steps), C.ThreeSteps(Other(x), p));
            && Seals(net, s, Other(x), KEY_ID, HeaderFor(4)) && Carries(f, Sealing(net, s, Other(x), KEY_ID, HeaderFor(4), []))
            && var s1 := EmitStep(net, s, Other(x), KEY_ID, HeaderFor(4), []);
               !OpensTo(s1, DeliverStep(net, s1, x, f), x, Sealing(net, s, Other(x), KEY_ID, HeaderFor(4), []))
  {
    steps := ComesToMute(net, x);
    p := NextPlan(Run(net, steps), x);
    f := Unheard(net, steps, x, p);
  }

  lemma Unheard(net: Net, steps: seq<Step>, x: Side, p: C.Plan) returns (f: Frame)
    requires net.WellFormed() && net.leftCfg.suite == net.rightCfg.suite && Stage(Run(net, steps), x, 3, [1, 3, 2])
    requires Mute(Run(net, steps), x) && p == NextPlan(Run(net, steps), x)
    ensures C.Ready(net, Run(net, steps), Other(x), p)
    ensures var s := After(net, Run(net, steps), C.ThreeSteps(Other(x), p));
            && Seals(net, s, Other(x), KEY_ID, HeaderFor(4)) && Carries(f, Sealing(net, s, Other(x), KEY_ID, HeaderFor(4), []))
            && var s1 := EmitStep(net, s, Other(x), KEY_ID, HeaderFor(4), []);
               !OpensTo(s1, DeliverStep(net, s1, x, f), x, Sealing(net, s, Other(x), KEY_ID, HeaderFor(4), []))
  {
    var s0, z := Run(net, steps), Other(x);
    var s := After(net, s0, C.ThreeSteps(z, p));
    RunKeepsInv(net, steps);
    NextReady(net, s0, x, [1, 3, 2]);
    StaysMute(net, s0, x, z, p);
    SenderAfter(net, s0, x, [1, 3, 2]);
    CanSeal(net, s, z);
    f := SealedFrame(net, s0, s, z, C.ThreeSteps(z, p));
    C.AgreementDelivers(net, steps, z, p, s, z, KEY_ID, HeaderFor(4), [], f);
  }

  /** The frame as it is sealed. */
  lemma SealedFrame(net: Net, s0: Sys, s: Sys, z: Side, todo: seq<Step>) returns (f: Frame)
    requires net.WellFormed() && Inv(net, s0) && s == After(net, s0, todo) && Seals(net, s, z, KEY_ID, HeaderFor(4))
    ensures Carries(f, Sealing(net, s, z, KEY_ID, HeaderFor(4), []))
  {
    AfterKeepsInv(net, s0, todo);
    assert SideInv(net, s, z);
    Emitted(net, s, z, KEY_ID, HeaderFor(4), []);
    var s1 := EmitStep(net, s, z, KEY_ID, HeaderFor(4), []);
    SealingInv(net, s, s1, z, KEY_ID, HeaderFor(4), []);
    f := FrameFor(Sealing(net, s, z, KEY_ID, HeaderFor(4), []));
    FrameCarries(net, s1, Sealing(net, s, z, KEY_ID, HeaderFor(4), []));
  }

  // ---- the exact condition ----

  lemma MuteBorn(net: Net, s: Sys, x: Side)
    requires WindowInv(net, s, x) && Mute(s, x)
    ensures s.births != map[]
  {
    var q := Remembered(s.At(x).view.replay);
    assert Adopted(s, x, q[0], s.At(x).via[0]);
  }

  /** Ends that never agree adopt nothing. */
  lemma NothingAdopted(net: Net, steps: seq<Step>, x: Side)
    requires net.WellFormed() && net.leftCfg.suite != net.rightCfg.suite
    ensures !Mute(Run(net, steps), x)
  {
    RunKeepsInv(net, steps);
    if Mute(Run(net, steps), x) {
      assert SideInv(net, Run(net, steps), x);
      MuteBorn(net, Run(net, steps), x);
      T.NoAgreement(net, steps);
    }
  }

  /** No run makes an end refuse the live process of the other exactly when the ends have
      different suites, and never agree, or both keep one epoch. */
  lemma MuteExactly(net: Net)
    requires net.WellFormed()
    ensures (forall steps, x :: !Mute(Run(net, steps), x)) <==>
            net.leftCfg.suite != net.rightCfg.suite || (net.leftCfg.keep <= 1 && net.rightCfg.keep <= 1)
  {
    if net.leftCfg.suite == net.rightCfg.suite && net.leftCfg.keep >= 2 {
      var steps := ComesToMute(net, Left);
    } else if net.leftCfg.suite == net.rightCfg.suite && net.rightCfg.keep >= 2 {
      var steps := ComesToMute(net, Right);
    } else {
      forall steps, x ensures !Mute(Run(net, steps), x) {
        if net.leftCfg.suite != net.rightCfg.suite { NothingAdopted(net, steps, x); } else { NeverMute(net, steps, x); }
      }
    }
  }
}
