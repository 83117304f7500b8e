/**
 Agreements without loss: one end asks, the other answers, the asker finishes. Two of them,
 one per direction, may interleave in any order.
 */
module E2eCrossing {
  import opened Wrappers
  import opened Bytes
  import opened Headers
  import opened E2eSpec
  import opened E2eProtocol
  import opened E2eInvariant
  import opened E2eFrames
  import opened E2eTheorems

  /** The epoch the responder draws and the times of the three steps of one agreement. */
  datatype Plan = Plan(epoch: nat, ask: nat, answer: nat, finish: nat)

  datatype Plans = Plans(left: Plan, right: Plan) {
    /** The agreement that `c` asks for. */
    function Of(c: Side): Plan { if c == Left then left else right }
  }

  function Count(order: seq<Side>, c: Side): nat {
    if order == [] then 0
    else Count(order[..|order| - 1], c) + if order[|order| - 1] == c then 1 else 0
  }

  /** The step the agreement asked for by `c` takes after `n` steps. */
  function StepOf(plans: Plans, c: Side, n: nat): Step {
    var p := plans.Of(c);
    if n == 0 then Ask(c, p.ask) else if n == 1 then Answer(Other(c), p.epoch, p.answer) else Finish(c, p.finish)
  }

  /** What that step does. */
  function Moved(net: Net, s: Sys, plans: Plans, c: Side, n: nat): Sys {
    var p := plans.Of(c);
    if n == 0 then AskStep(net, s, c, p.ask)
    else if n == 1 then AnswerStep(net, s, Other(c), p.epoch, p.answer)
    else FinishStep(net, s, c, p.finish)
  }

  lemma NextMoves(net: Net, s: Sys, plans: Plans, c: Side, n: nat)
    ensures Next(net, s, StepOf(plans, c, n)) == Moved(net, s, plans, c, n)
  {
  }

  function StepsOf(plans: Plans, order: seq<Side>): seq<Step> {
    if order == [] then [] else
    var before, c := order[..|order| - 1], order[|order| - 1];
    StepsOf(plans, before) + [StepOf(plans, c, Count(before, c))]
  }

  /** Whose agreements store their epoch at `x`, in that order. */
  function Stores(order: seq<Side>, x: Side): seq<Side> {
    if order == [] then [] else
    var before, c := order[..|order| - 1], order[|order| - 1];
    var n := Count(before, c);
    Stores(before, x) + if (n == 1 && x != c) || (n == 2 && x == c) then [c] else []
  }

  /** The agreement of `c` can run: nothing in flight, the responder's limit and the lifetime
      of the pending key admit it, and the drawn epoch is fresh. */
  ghost predicate Ready(net: Net, s: Sys, c: Side, p: Plan) {
    && MayStart(s.At(c).view, p.ask)
    && Admitted(s.At(Other(c)).view, net.CfgOf(Other(c)), p.answer).Some?
    && Drawable(s, p.epoch)
    && Elapsed(p.finish, p.ask) <= PENDING_ESK_TTL
  }

  /** How far the agreement of `c` got after `n` of its steps. */
  ghost predicate Progress(net: Net, s: Sys, c: Side, p: Plan, n: nat) {
    var e := s.At(c);
    if n == 0 then Ready(net, s, c, p)
    else if n == 1 then
      && e.exch.Asked? && e.view.pending == Some((e.exch.key, p.ask))
      && Admitted(s.At(Other(c)).view, net.CfgOf(Other(c)), p.answer).Some?
      && Drawable(s, p.epoch) && Elapsed(p.finish, p.ask) <= PENDING_ESK_TTL
    else if n == 2 then
      && e.exch.Answered? && e.exch.resp.epoch == p.epoch != 0 && e.exch.resp.suite == net.CfgOf(c).suite
      && e.exch.resp.ct.Some? && e.view.pending.Some? && e.view.pending.value.1 == p.ask
      && Elapsed(p.finish, p.ask) <= PENDING_ESK_TTL
    else true
  }

  /** `x` stored the epochs of `stored`, in that order, after the history `base`. */
  ghost predicate Extended(s: Sys, x: Side, base: Epochs, plans: Plans, stored: seq<Side>) {
    var h := s.At(x).hist;
    && |h| == |base| + |stored|
    && (forall i :: 0 <= i < |stored| ==> h[|base| + i].0 == plans.Of(stored[i]).epoch)
  }

  lemma OwnStep(net: Net, s: Sys, c: Side, plans: Plans, n: nat)
    requires net.leftCfg.suite == net.rightCfg.suite && n < 3 && Progress(net, s, c, plans.Of(c), n)
    ensures Progress(net, Moved(net, s, plans, c, n), c, plans.Of(c), n + 1)
  {
  }

  lemma OtherAsks(net: Net, s: Sys, c: Side, p: Plan, o: Plan, m: nat)
    requires Progress(net, s, c, p, 0) && Progress(net, s, Other(c), o, m)
    ensures Progress(net, AskStep(net, s, c, p.ask), Other(c), o, m)
  {
  }

  lemma OtherIsAnswered(net: Net, s: Sys, c: Side, p: Plan, o: Plan, m: nat)
    requires net.leftCfg.suite == net.rightCfg.suite && p.epoch != o.epoch
    requires Progress(net, s, c, p, 1) && Progress(net, s, Other(c), o, m)
    ensures Progress(net, AnswerStep(net, s, Other(c), p.epoch, p.answer), Other(c), o, m)
  {
  }

  lemma OtherFinishes(net: Net, s: Sys, c: Side, p: Plan, o: Plan, m: nat)
    requires Progress(net, s, c, p, 2) && Progress(net, s, Other(c), o, m)
    ensures Progress(net, FinishStep(net, s, c, p.finish), Other(c), o, m)
  {
  }

  lemma OtherStep(net: Net, s: Sys, c: Side, plans: Plans, n: nat, m: nat)
    requires net.leftCfg.suite == net.rightCfg.suite && plans.left.epoch != plans.right.epoch
    requires n < 3 && Progress(net, s, c, plans.Of(c), n) && Progress(net, s, Other(c), plans.Of(Other(c)), m)
    ensures Progress(net, Moved(net, s, plans, c, n), Other(c), plans.Of(Other(c)), m)
  {
    var p, o := plans.Of(c), plans.Of(Other(c));
    if n == 0 {
      OtherAsks(net, s, c, p, o, m);
    } else if n == 1 {
      OtherIsAnswered(net, s, c, p, o, m);
    } else {
      OtherFinishes(net, s, c, p, o, m);
    }
  }

  lemma StepStores(net: Net, s: Sys, c: Side, plans: Plans, n: nat, x: Side)
    requires net.leftCfg.suite == net.rightCfg.suite && n < 3 && Progress(net, s, c, plans.Of(c), n)
    ensures var h, h' := s.At(x).hist, Moved(net, s, plans, c, n).At(x).hist;
            if (n == 1 && x != c) || (n == 2 && x == c)
            then |h'| == |h| + 1 && h'[..|h|] == h && h'[|h|].0 == plans.Of(c).epoch
            else h' == h
  {
  }

  lemma {:induction false} CountMono(order: seq<Side>, c: Side)
    requires order != []
    ensures Count(order[..|order| - 1], c) <= Count(order, c)
  {
  }

  lemma StoredStep(net: Net, s: Sys, plans: Plans, order: seq<Side>, base: Epochs, x: Side)
    requires net.leftCfg.suite == net.rightCfg.suite && order != []
    requires var before, c := order[..|order| - 1], order[|order| - 1];
             && Count(before, c) < 3 && Progress(net, s, c, plans.Of(c), Count(before, c))
             && Extended(s, x, base, plans, Stores(before, x))
    ensures var before, c := order[..|order| - 1], order[|order| - 1];
            Extended(Moved(net, s, plans, c, Count(before, c)), x, base, plans, Stores(order, x))
  {
    var before, c := order[..|order| - 1], order[|order| - 1];
    StepStores(net, s, c, plans, Count(before, c), x);
    ExtendedMore(s, Moved(net, s, plans, c, Count(before, c)), x, base, plans, Stores(before, x), c);
    assert Stores(order, x) == Stores(before, x) || Stores(order, x) == Stores(before, x) + [c];
  }

  lemma ExtendedMore(s: Sys, s': Sys, x: Side, base: Epochs, plans: Plans, stored: seq<Side>, c: Side)
    requires Extended(s, x, base, plans, stored)
    ensures s'.At(x).hist == s.At(x).hist ==> Extended(s', x, base, plans, stored)
    ensures var h, h' := s.At(x).hist, s'.At(x).hist;
            |h'| == |h| + 1 && h'[..|h|] == h && h'[|h|].0 == plans.Of(c).epoch ==> Extended(s', x, base, plans, stored + [c])
  {
    var h, h' := s.At(x).hist, s'.At(x).hist;
    if |h'| == |h| + 1 && h'[..|h|] == h {
      assert forall i :: 0 <= i < |h| ==> h'[i] == h'[..|h|][i];
    }
  }

  ghost predicate Midway(net: Net, s: Sys, s': Sys, plans: Plans, order: seq<Side>) {
    && Progress(net, s', Left, plans.left, Count(order, Left))
    && Progress(net, s', Right, plans.right, Count(order, Right))
    && Extended(s', Left, s.left.hist, plans, Stores(order, Left))
    && Extended(s', Right, s.right.hist, plans, Stores(order, Right))
  }

  lemma MidwayStep(net: Net, s: Sys, mid: Sys, plans: Plans, order: seq<Side>)
    requires net.leftCfg.suite == net.rightCfg.suite && plans.left.epoch != plans.right.epoch
    requires order != [] && Count(order, Left) <= 3 && Count(order, Right) <= 3
    requires Midway(net, s, mid, plans, order[..|order| - 1])
    ensures var before, c := order[..|order| - 1], order[|order| - 1];
            Midway(net, s, Moved(net, mid, plans, c, Count(before, c)), plans, order)
  {
    var before, c := order[..|order| - 1], order[|order| - 1];
    ProgressStep(net, mid, plans, c, Count(before, c), Count(before, Other(c)));
    StoredStep(net, mid, plans, order, s.left.hist, Left);
    StoredStep(net, mid, plans, order, s.right.hist, Right);
  }

  lemma ProgressStep(net: Net, s: Sys, plans: Plans, c: Side, n: nat, m: nat)
    requires net.leftCfg.suite == net.rightCfg.suite && plans.left.epoch != plans.right.epoch
    requires n < 3 && Progress(net, s, c, plans.Of(c), n) && Progress(net, s, Other(c), plans.Of(Other(c)), m)
    ensures var s' := Moved(net, s, plans, c, n);
            Progress(net, s', c, plans.Of(c), n + 1) && Progress(net, s', Other(c), plans.Of(Other(c)), m)
  {
    OwnStep(net, s, c, plans, n);
    OtherStep(net, s, c, plans, n, m);
  }

  /** Every interleaving brings both agreements as far as it lets them. */
  lemma {:induction false} Interleaved(net: Net, s: Sys, plans: Plans, order: seq<Side>)
    requires net.leftCfg.suite == net.rightCfg.suite && plans.left.epoch != plans.right.epoch
    requires Ready(net, s, Left, plans.left) && Ready(net, s, Right, plans.right)
    requires Count(order, Left) <= 3 && Count(order, Right) <= 3
    ensures Midway(net, s, After(net, s, StepsOf(plans, order)), plans, order)
  {
    if order != [] {
      var before := order[..|order| - 1];
      CountMono(order, Left);
      CountMono(order, Right);
      Interleaved(net, s, plans, before);
      assert StepsOf(plans, order)[..|StepsOf(plans, order)| - 1] == StepsOf(plans, before);
      var mid, c := After(net, s, StepsOf(plans, before)), order[|order| - 1];
      MidwayStep(net, s, mid, plans, order);
      NextMoves(net, mid, plans, c, Count(before, c));
    }
  }

  // ---- what both ends hold afterwards ----

  ghost predicate Both(stored: seq<Side>) {
    |stored| == 2 && stored[0] != stored[1]
  }

  lemma {:induction false} StoresCount(order: seq<Side>, x: Side)
    ensures |Stores(order, x)| == (if Count(order, x) >= 3 then 1 else 0) + (if Count(order, Other(x)) >= 2 then 1 else 0)
    ensures x in Stores(order, x) <==> Count(order, x) >= 3
    ensures Other(x) in Stores(order, x) <==> Count(order, Other(x)) >= 2
  {
    if order != [] {
      StoresCount(order[..|order| - 1], x);
    }
  }

  lemma StoresBoth(order: seq<Side>, x: Side)
    requires Count(order, Left) == 3 && Count(order, Right) == 3
    ensures Both(Stores(order, x))
  {
    StoresCount(order, x);
    var q := Stores(order, x);
    assert q[0] in q && q[1] in q;
  }

  lemma HeldExactly(net: Net, s: Sys, x: Side, i: nat)
    requires EndInv(net, s, x) && i < |s.At(x).hist|
    ensures Holds(s.At(x).view.epochs, s.At(x).hist[i].0) <==> |s.At(x).hist| <= i + Max(net.CfgOf(x).keep, 1)
  {
    if |s.At(x).hist| <= i + Max(net.CfgOf(x).keep, 1) { HeldSecret(net, s, x, i); }
    if Holds(s.At(x).view.epochs, s.At(x).hist[i].0) {
      var j := FoundSecret(net, s, x, s.At(x).hist[i].0);
    }
  }

  /** `y` can open what its peer seals next: it holds the peer's send epoch. */
  ghost predicate CanOpen(s: Sys, y: Side) {
    s.At(Other(y)).view.sendEpoch.Some? && Holds(s.At(y).view.epochs, s.At(Other(y)).view.sendEpoch.value)
  }

  /**
   Two crossing agreements without loss, in any order, from any reachable state: an end can
   open what the other seals next exactly when it keeps at least two epochs or both happen
   to have stored the same agreement last.
   */
  lemma CrossingAgreements(net: Net, steps: seq<Step>, plans: Plans, order: seq<Side>, y: Side)
    requires net.WellFormed() && net.leftCfg.suite == net.rightCfg.suite && plans.left.epoch != plans.right.epoch
    requires Ready(net, Run(net, steps), Left, plans.left) && Ready(net, Run(net, steps), Right, plans.right)
    requires Count(order, Left) == 3 && Count(order, Right) == 3
    ensures Both(Stores(order, Left)) && Both(Stores(order, Right))
    ensures var s' := After(net, Run(net, steps), StepsOf(plans, order));
            CanOpen(s', y) <==> net.CfgOf(y).keep >= 2 || Stores(order, Left)[1] == Stores(order, Right)[1]
  {
    var s := Run(net, steps);
    RunKeepsInv(net, steps);
    AfterKeepsInv(net, s, StepsOf(plans, order));
    Interleaved(net, s, plans, order);
    StoresBoth(order, Left);
    StoresBoth(order, Right);
    CrossedOpen(net, s, After(net, s, StepsOf(plans, order)), plans, Stores(order, y), Stores(order, Other(y)), y);
  }

  /**
   So what the other end seals then is opened to the same text exactly when the receiver keeps
   at least two epochs or both stored the same agreement last, and its window has not retired
   the sending process.
   */
  lemma CrossingDelivers(net: Net, steps: seq<Step>, plans: Plans, order: seq<Side>, y: Side,
                         keyId: Text, header: Entries, plain: Text, f: Frame, s': Sys)
    requires net.WellFormed() && net.leftCfg.suite == net.rightCfg.suite && plans.left.epoch != plans.right.epoch
    requires Ready(net, Run(net, steps), Left, plans.left) && Ready(net, Run(net, steps), Right, plans.right)
    requires Count(order, Left) == 3 && Count(order, Right) == 3 && s' == After(net, Run(net, steps), StepsOf(plans, order))
    requires Seals(net, s', Other(y), keyId, header) && Carries(f, Sealing(net, s', Other(y), keyId, header, plain))
    ensures Both(Stores(order, Left)) && Both(Stores(order, Right))
    ensures var s1 := EmitStep(net, s', Other(y), keyId, header, plain);
            OpensTo(s1, DeliverStep(net, s1, y, f), y, Sealing(net, s', Other(y), keyId, header, plain))
            <==> && (net.CfgOf(y).keep >= 2 || Stores(order, Left)[1] == Stores(order, Right)[1])
                 && s'.At(Other(y)).inc !in s'.At(y).view.replay.retired
  {
    CrossingAgreements(net, steps, plans, order, y);
    ReachedInv(net, steps, StepsOf(plans, order));
    DeliversIfHeld(net, s', y, keyId, header, plain, f);
  }

  lemma ReachedInv(net: Net, steps: seq<Step>, more: seq<Step>)
    requires net.WellFormed()
    ensures Inv(net, After(net, Run(net, steps), more))
  {
    RunKeepsInv(net, steps);
    AfterKeepsInv(net, Run(net, steps), more);
  }

  lemma DeliversIfHeld(net: Net, s: Sys, y: Side, keyId: Text, header: Entries, plain: Text, f: Frame)
    requires net.WellFormed() && Inv(net, s)
    requires Seals(net, s, Other(y), keyId, header) && Carries(f, Sealing(net, s, Other(y), keyId, header, plain))
    ensures var s1 := EmitStep(net, s, Other(y), keyId, header, plain);
            OpensTo(s1, DeliverStep(net, s1, y, f), y, Sealing(net, s, Other(y), keyId, header, plain))
            <==> CanOpen(s, y) && s.At(Other(y)).inc !in s.At(y).view.replay.retired
  {
    assert SideInv(net, s, Other(y));
    SendsNewest(net, s, Other(y));
    SealedOpensExactly(net, s, Other(y), keyId, header, plain, f);
  }

  lemma CrossedOpen(net: Net, s: Sys, s': Sys, plans: Plans, mine: seq<Side>, theirs: seq<Side>, y: Side)
    requires Inv(net, s') && plans.left.epoch != plans.right.epoch && Both(mine) && Both(theirs)
    requires Extended(s', y, s.At(y).hist, plans, mine) && Extended(s', Other(y), s.At(Other(y)).hist, plans, theirs)
    ensures CanOpen(s', y) <==> net.CfgOf(y).keep >= 2 || mine[1] == theirs[1]
  {
    assert SideInv(net, s', y) && SideInv(net, s', Other(y));
    var h, g := s'.At(y).hist, s'.At(Other(y)).hist;
    LastTwo(s', y, s.At(y).hist, plans, mine);
    LastTwo(s', Other(y), s.At(Other(y)).hist, plans, theirs);
    HeldExactly(net, s', y, |h| - 1);
    HeldExactly(net, s', y, |h| - 2);
    assert s'.At(Other(y)).view.sendEpoch == Some(g[|g| - 1].0);
    assert theirs[1] == mine[0] || theirs[1] == mine[1];
  }

  lemma LastTwo(s: Sys, x: Side, base: Epochs, plans: Plans, stored: seq<Side>)
    requires Extended(s, x, base, plans, stored) && |stored| == 2
    ensures var h := s.At(x).hist;
            |h| >= 2 && h[|h| - 1].0 == plans.Of(stored[1]).epoch && h[|h| - 2].0 == plans.Of(stored[0]).epoch
  {
  }

  lemma OrderSnoc(order: seq<Side>, c: Side, order': seq<Side>)
    requires order' == order + [c]
    ensures forall x :: Count(order', x) == Count(order, x) + if x == c then 1 else 0
    ensures forall x :: Stores(order', x) ==
                        Stores(order, x) + if (Count(order, c) == 1 && x != c) || (Count(order, c) == 2 && x == c) then [c] else []
  {
    assert order'[..|order|] == order;
  }

  /** Each answer comes before the other agreement's finish. */
  const CROSSED := [Left, Right, Left, Right, Left, Right]

  lemma CrossedOrder()
    ensures Count(CROSSED, Left) == 3 && Count(CROSSED, Right) == 3
    ensures Stores(CROSSED, Left) == [Right, Left] && Stores(CROSSED, Right) == [Left, Right]
  {
    OrderSnoc([], Left, [Left]);
    OrderSnoc([Left], Right, [Left, Right]);
    OrderSnoc([Left, Right], Left, [Left, Right, Left]);
    OrderSnoc([Left, Right, Left], Right, [Left, Right, Left, Right]);
    OrderSnoc([Left, Right, Left, Right], Left, [Left, Right, Left, Right, Left]);
    OrderSnoc([Left, Right, Left, Right, Left], Right, CROSSED);
  }

  /** With a bound of one, that order leaves an end unable to open what the other seals. */
  lemma CrossingFailsWithOneEpoch(net: Net, steps: seq<Step>, plans: Plans, y: Side)
    requires net.WellFormed() && net.leftCfg.suite == net.rightCfg.suite && plans.left.epoch != plans.right.epoch
    requires Ready(net, Run(net, steps), Left, plans.left) && Ready(net, Run(net, steps), Right, plans.right)
    requires net.CfgOf(y).keep <= 1
    ensures !CanOpen(After(net, Run(net, steps), StepsOf(plans, CROSSED)), y)
  {
    CrossedOrder();
    CrossingAgreements(net, steps, plans, CROSSED, y);
  }

  lemma AfterSnoc(net: Net, s: Sys, steps: seq<Step>, step: Step)
    ensures After(net, s, steps + [step]) == Next(net, After(net, s, steps), step)
  {
    assert (steps + [step])[..|steps|] == steps;
  }

  function ThreeSteps(c: Side, p: Plan): seq<Step> {
    [Ask(c, p.ask), Answer(Other(c), p.epoch, p.answer), Finish(c, p.finish)]
  }

  lemma AfterThree(net: Net, s: Sys, c: Side, p: Plan)
    ensures var todo := ThreeSteps(c, p);
            After(net, s, todo) == Next(net, Next(net, Next(net, s, todo[0]), todo[1]), todo[2])
  {
    var todo := ThreeSteps(c, p);
    AfterSnoc(net, s, [], todo[0]);
    AfterSnoc(net, s, [todo[0]], todo[1]);
    AfterSnoc(net, s, [todo[0], todo[1]], todo[2]);
    assert [] + [todo[0]] == [todo[0]] && [todo[0], todo[1]] + [todo[2]] == todo;
  }

  /** Both histories end with the agreed epoch. */
  lemma AgreementStores(net: Net, s: Sys, c: Side, p: Plan)
    requires net.leftCfg.suite == net.rightCfg.suite && Ready(net, s, c, p)
    ensures var d := After(net, s, ThreeSteps(c, p)); EndsWith(d.left, p.epoch) && EndsWith(d.right, p.epoch)
  {
    var plans, todo := Plans(p, p), ThreeSteps(c, p);
    var a := Moved(net, s, plans, c, 0);
    var b := Moved(net, a, plans, c, 1);
    AfterThree(net, s, c, p);
    NextMoves(net, s, plans, c, 0);
    NextMoves(net, a, plans, c, 1);
    NextMoves(net, b, plans, c, 2);
    OwnStep(net, s, c, plans, 0);
    OwnStep(net, a, c, plans, 1);
    StepStores(net, a, c, plans, 1, Other(c));
    StepStores(net, b, c, plans, 2, Other(c));
    StepStores(net, b, c, plans, 2, c);
    var d := Moved(net, b, plans, c, 2);
    assert EndsWith(d.At(c), p.epoch) && EndsWith(d.At(Other(c)), p.epoch);
  }

  ghost predicate EndsWith(e: End, epoch: nat) {
    e.hist != [] && e.hist[|e.hist| - 1].0 == epoch
  }

  /** Two ends that both stored an epoch last agree on it. */
  lemma LastAgree(net: Net, d: Sys, epoch: nat)
    requires Inv(net, d) && EndsWith(d.left, epoch) && EndsWith(d.right, epoch)
    ensures d.left.view.sendEpoch == d.right.view.sendEpoch == Some(epoch)
    ensures SecretFor(d.left.view.epochs, epoch).Some?
    ensures SecretFor(d.left.view.epochs, epoch) == SecretFor(d.right.view.epochs, epoch)
  {
    assert d.At(Left) == d.left && d.At(Right) == d.right;
    SendsNewest(net, d, Left);
    SendsNewest(net, d, Right);
  }

  /** One agreement without loss, from any reachable state: both ends send under its epoch
      and the same secret, so each can open what the other seals next. */
  lemma AgreementConverges(net: Net, steps: seq<Step>, c: Side, p: Plan)
    requires net.WellFormed() && net.leftCfg.suite == net.rightCfg.suite && Ready(net, Run(net, steps), c, p)
    ensures var s' := After(net, Run(net, steps), ThreeSteps(c, p));
            && s'.left.view.sendEpoch == s'.right.view.sendEpoch == Some(p.epoch)
            && SecretFor(s'.left.view.epochs, p.epoch).Some?
            && SecretFor(s'.left.view.epochs, p.epoch) == SecretFor(s'.right.view.epochs, p.epoch)
  {
    RunKeepsInv(net, steps);
    AfterKeepsInv(net, Run(net, steps), ThreeSteps(c, p));
    AgreementStores(net, Run(net, steps), c, p);
    LastAgree(net, After(net, Run(net, steps), ThreeSteps(c, p)), p.epoch);
  }

  /** `s'` is reached from a reachable state by one agreement without loss. */
  ghost predicate Agreed(net: Net, steps: seq<Step>, c: Side, p: Plan, s': Sys) {
    && Ready(net, Run(net, steps), c, p)
    && s' == After(net, Run(net, steps), ThreeSteps(c, p))
  }

  /**
   After one agreement without loss, what either end seals reaches the other and opens to
   the same text, exactly when the receiver's window has not retired the sending process.
   */
  lemma AgreementDelivers(net: Net, steps: seq<Step>, c: Side, p: Plan, s': Sys,
                          z: Side, keyId: Text, header: Entries, plain: Text, f: Frame)
    requires net.WellFormed() && net.leftCfg.suite == net.rightCfg.suite && Agreed(net, steps, c, p, s')
    requires Seals(net, s', z, keyId, header) && Carries(f, Sealing(net, s', z, keyId, header, plain))
    ensures var s1 := EmitStep(net, s', z, keyId, header, plain);
            OpensTo(s1, DeliverStep(net, s1, Other(z), f), Other(z), Sealing(net, s', z, keyId, header, plain))
            <==> s'.At(z).inc !in s'.At(Other(z)).view.replay.retired
  {
    AgreementLeaves(net, steps, c, p, s', z);
    SealedOpens(net, s', z, keyId, header, plain, f);
  }

  lemma AgreementLeaves(net: Net, steps: seq<Step>, c: Side, p: Plan, s': Sys, z: Side)
    requires net.WellFormed() && net.leftCfg.suite == net.rightCfg.suite && Agreed(net, steps, c, p, s')
    requires s'.At(z).hist != []
    ensures Inv(net, s') && Holds(s'.At(Other(z)).view.epochs, s'.At(z).hist[|s'.At(z).hist| - 1].0)
  {
    RunKeepsInv(net, steps);
    AfterKeepsInv(net, Run(net, steps), ThreeSteps(c, p));
    AgreementStores(net, Run(net, steps), c, p);
    LastHeld(net, s', p.epoch, z);
  }

  lemma LastHeld(net: Net, d: Sys, epoch: nat, z: Side)
    requires Inv(net, d) && EndsWith(d.left, epoch) && EndsWith(d.right, epoch)
    ensures EndsWith(d.At(z), epoch) && Holds(d.At(Other(z)).view.epochs, epoch)
  {
    LastAgree(net, d, epoch);
  }
}
