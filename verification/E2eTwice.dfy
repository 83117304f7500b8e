/**
 The bound on the epoch history in `E2eOnce` is exact: with six epochs or more there is a run
 in which a frame is opened twice. The sender restarts again and again; late frames of five
 earlier processes and frames of five later ones make the receiver's window forget the
 process between them while its epoch is still held.
 */
module E2eTwice {
  import opened ReplaySpec
  import opened E2eSpec
  import opened E2eProtocol
  import opened E2eInvariant
  import opened E2eFrames
  import opened E2eOnce
  import opened E2eRounds

  // ---- the run ----

  /** The epochs of the first rounds. */
  function Firsts(m: nat): (h: seq<nat>)
    ensures |h| == m && forall i :: 0 <= i < m ==> h[i] == i + 1
  {
    seq(m, i requires 0 <= i => i + 1)
  }

  lemma FirstsGrow(m: nat)
    ensures Firsts(m) + [m + 1] == Firsts(m + 1)
  {
  }

  /** The run so far: `m` rounds, `n` deliveries of which the first was frame 5. */
  ghost predicate Reached(s: Sys, x: Side, m: nat, q: seq<nat>, n: nat) {
    && Stage(s, x, m, Firsts(m)) && Remembered(s.At(x).view.replay) == q && |s.openings| == n
    && (n > 0 ==> m > 5 && s.openings[0].tag == s.log[5].sealed.tag)
  }

  lemma RoundReaches(s: Sys, s': Sys, x: Side, m: nat, q: seq<nat>, n: nat)
    requires Reached(s, x, m, q, n) && Stage(s', x, m + 1, Firsts(m + 1)) && Unnoticed(s, s', x, m)
    ensures Reached(s', x, m + 1, q, n)
  {
    assert m > 5 ==> s'.log[5] == s'.log[..m][5];
  }

  lemma NextRound(net: Net, steps: seq<Step>, x: Side, m: nat, q: seq<nat>, n: nat) returns (steps': seq<Step>)
    requires net.WellFormed() && net.leftCfg.suite == net.rightCfg.suite && Reached(Run(net, steps), x, m, q, n) && m < 12
    ensures Reached(Run(net, steps'), x, m + 1, q, n)
  {
    steps' := AddRound(net, steps, x, m, Firsts(m));
    FirstsGrow(m);
    RoundReaches(Run(net, steps), Run(net, steps'), x, m, q, n);
  }

  lemma DeliveryReaches(s: Sys, s': Sys, x: Side, m: nat, q: seq<nat>, n: nat, j: nat)
    requires Reached(s, x, m, q, n) && Stage(s', x, m, Firsts(m)) && j < m && Adopts(s, s', x, j) && (n == 0 ==> j == 5)
    ensures Reached(s', x, m, Bounded(q + [2 + j], REMEMBERED), n + 1) && s'.openings[n].tag == s'.log[j].sealed.tag
  {
    assert n > 0 ==> s'.openings[0] == s'.openings[..n][0];
  }

  lemma Delivery(net: Net, steps: seq<Step>, x: Side, m: nat, q: seq<nat>, n: nat, j: nat)
    requires net.WellFormed() && Reached(Run(net, steps), x, m, q, n)
    requires j < m <= j + Kept(net, x) && 2 + j !in q && (n == 0 ==> j == 5)
    ensures var s := Run(net, steps); var s' := DeliverStep(net, s, x, FrameFor(s.log[j]));
            Reached(s', x, m, Bounded(q + [2 + j], REMEMBERED), n + 1) && s'.openings[n].tag == s'.log[j].sealed.tag
  {
    var s := Run(net, steps);
    RunSides(net, steps, x, j);
    DeliverLogged(net, s, x, m, Firsts(m), j, j);
    DeliveryReaches(s, DeliverStep(net, s, x, FrameFor(s.log[j])), x, m, q, n, j);
  }

  lemma NextDelivery(net: Net, steps: seq<Step>, x: Side, m: nat, q: seq<nat>, n: nat, j: nat) returns (steps': seq<Step>)
    requires net.WellFormed() && Reached(Run(net, steps), x, m, q, n)
    requires j < m <= j + Kept(net, x) && 2 + j !in q && (n == 0 ==> j == 5)
    ensures Reached(Run(net, steps'), x, m, Bounded(q + [2 + j], REMEMBERED), n + 1)
    ensures Run(net, steps').openings[n].tag == Run(net, steps').log[j].sealed.tag
  {
    Delivery(net, steps, x, m, q, n, j);
    steps' := AddDelivery(net, steps, x, FrameFor(Run(net, steps).log[j]));
  }

  lemma {:induction false} Rounds(net: Net, x: Side, m: nat) returns (steps: seq<Step>)
    requires net.WellFormed() && net.leftCfg.suite == net.rightCfg.suite && m <= 12
    ensures Reached(Run(net, steps), x, m, [], 0)
  {
    if m == 0 {
      steps := [];
    } else {
      steps := Rounds(net, x, m - 1);
      steps := NextRound(net, steps, x, m - 1, [], 0);
    }
  }

  /** Frame 5 first, then the five before it, then those after it. */
  function Place(i: nat): nat { if i == 0 then 5 else if i < 6 then i - 1 else i }

  function Places(n: nat): (q: seq<nat>)
    ensures |q| == n && forall i :: 0 <= i < n ==> q[i] == 2 + Place(i)
  {
    seq(n, i requires 0 <= i => 2 + Place(i))
  }

  lemma PlacesGrow(n: nat)
    requires 0 < n <= 11
    ensures Places(n) == Places(n - 1) + [2 + Place(n - 1)] && 2 + Place(n - 1) !in Places(n - 1)
    ensures Bounded(Places(n - 1), REMEMBERED) == Places(n - 1)
    ensures Place(n - 1) < Max(n, 6) <= Place(n - 1) + 6
  {
  }

  lemma {:induction false} Deliveries(net: Net, x: Side, n: nat) returns (steps: seq<Step>)
    requires net.WellFormed() && net.leftCfg.suite == net.rightCfg.suite && Kept(net, x) > KEEP_LIMIT && 0 < n <= 11
    ensures Reached(Run(net, steps), x, Max(n, 6), Bounded(Places(n), REMEMBERED), n)
    decreases n, 1
  {
    steps := Awaiting(net, x, n);
    PlacesGrow(n);
    steps := NextDelivery(net, steps, x, Max(n, 6), Places(n - 1), n - 1, Place(n - 1));
  }

  /** The run up to the `n`th delivery. */
  lemma {:induction false} Awaiting(net: Net, x: Side, n: nat) returns (steps: seq<Step>)
    requires net.WellFormed() && net.leftCfg.suite == net.rightCfg.suite && Kept(net, x) > KEEP_LIMIT && 0 < n <= 11
    ensures Reached(Run(net, steps), x, Max(n, 6), Places(n - 1), n - 1)
    decreases n, 0
  {
    if n == 1 {
      steps := Rounds(net, x, 6);
    } else {
      steps := Deliveries(net, x, n - 1);
      PlacesGrow(n);
      if n > 6 { steps := NextRound(net, steps, x, n - 1, Places(n - 1), n - 1); }
    }
  }

  /** An end that keeps six epochs or more opens some frame a second time in some run. */
  lemma OpenedTwice(net: Net, x: Side) returns (steps: seq<Step>, k: nat, l: nat)
    requires net.WellFormed() && net.leftCfg.suite == net.rightCfg.suite && Kept(net, x) > KEEP_LIMIT
    ensures k < l < |Run(net, steps).openings| && Run(net, steps).openings[k].tag == Run(net, steps).openings[l].tag
  {
    steps := Deliveries(net, x, 11);
    var q := Bounded(Places(11), REMEMBERED);
    assert forall i :: 0 <= i < |q| ==> q[i] == 2 + Place(i + 1);
    steps := NextDelivery(net, steps, x, 11, q, 11, 5);
    k, l := 0, 11;
  }

  // ---- the exact condition ----

  /** Ends with different suites never agree on an epoch. */
  lemma {:induction false} NoAgreement(net: Net, steps: seq<Step>)
    requires net.leftCfg.suite != net.rightCfg.suite
    ensures Run(net, steps).births == map[]
  {
    if steps != [] {
      NoAgreement(net, steps[..|steps| - 1]);
      NoBirth(net, Run(net, steps[..|steps| - 1]), steps[|steps| - 1]);
    }
  }

  lemma NoBirth(net: Net, s: Sys, step: Step)
    requires net.leftCfg.suite != net.rightCfg.suite
    ensures Next(net, s, step).births == s.births
  {
  }

  ghost predicate Repeats(net: Net, steps: seq<Step>) {
    var o := Run(net, steps).openings;
    exists k, l :: 0 <= k < l < |o| && o[k].tag == o[l].tag
  }

  /** No run opens a frame twice exactly when the ends cannot agree or both keep at most five epochs. */
  lemma OnceExactly(net: Net)
    requires net.WellFormed()
    ensures (forall steps :: !Repeats(net, steps)) <==>
            net.leftCfg.suite != net.rightCfg.suite || (net.leftCfg.keep <= KEEP_LIMIT && net.rightCfg.keep <= KEEP_LIMIT)
  {
    if net.leftCfg.suite == net.rightCfg.suite && net.leftCfg.keep > KEEP_LIMIT {
      SomeRepeats(net, Left);
    } else if net.leftCfg.suite == net.rightCfg.suite && net.rightCfg.keep > KEEP_LIMIT {
      SomeRepeats(net, Right);
    } else {
      forall steps ensures !Repeats(net, steps) { NoneRepeats(net, steps); }
    }
  }

  lemma SomeRepeats(net: Net, x: Side)
    requires net.WellFormed() && net.leftCfg.suite == net.rightCfg.suite && Kept(net, x) > KEEP_LIMIT
    ensures exists steps :: Repeats(net, steps)
  {
    var steps, k, l := OpenedTwice(net, x);
    assert Repeats(net, steps);
  }

  lemma NoneRepeats(net: Net, steps: seq<Step>)
    requires net.WellFormed()
    requires net.leftCfg.suite != net.rightCfg.suite || (net.leftCfg.keep <= KEEP_LIMIT && net.rightCfg.keep <= KEEP_LIMIT)
    ensures !Repeats(net, steps)
  {
    var o := Run(net, steps).openings;
    forall k, l | 0 <= k < l < |o| ensures o[k].tag != o[l].tag {
      if net.leftCfg.suite == net.rightCfg.suite {
        OpenedOnce(net, steps, k, l);
      } else {
        NothingOpened(net, steps);
      }
    }
  }

  lemma OpenedEpoch(s: Sys, o: Opening)
    requires OpeningInv(s, o)
    ensures o.epoch in s.births
  {
  }

  lemma NothingOpened(net: Net, steps: seq<Step>)
    requires net.WellFormed() && net.leftCfg.suite != net.rightCfg.suite
    ensures Run(net, steps).openings == []
  {
    RunKeepsInv(net, steps);
    var s := Run(net, steps);
    if s.openings != [] {
      OpenedEpoch(s, s.openings[0]);
      NoAgreement(net, steps);
    }
  }
}
