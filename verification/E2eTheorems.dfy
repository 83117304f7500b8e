/** What the end-to-end protocol guarantees over every run. */
module E2eTheorems {
  import opened Wrappers
  import opened Bytes
  import opened Headers
  import opened ReplaySpec
  import opened E2eSpec
  import opened E2eProtocol
  import opened E2eInvariant
  import opened E2eFrames
  import opened Widths

  // ---- agreement ----

  /** An epoch both ends hold has the same secret at both. */
  lemma SharedEpochsAgree(net: Net, steps: seq<Step>, epoch: nat)
    requires net.WellFormed()
    ensures var s := Run(net, steps);
            Holds(s.left.view.epochs, epoch) && Holds(s.right.view.epochs, epoch) ==>
              SecretFor(s.left.view.epochs, epoch) == SecretFor(s.right.view.epochs, epoch)
  {
    var s := Run(net, steps);
    RunKeepsInv(net, steps);
    if Holds(s.left.view.epochs, epoch) && Holds(s.right.view.epochs, epoch) {
      var i := FoundSecret(net, s, Left, epoch);
      var j := FoundSecret(net, s, Right, epoch);
      assert Assigned(s, Left, s.left.inc, s.left.hist[i]) && Assigned(s, Right, s.right.inc, s.right.hist[j]);
    }
  }

  /** The epoch an end sends with is one it holds, and it has one as soon as it holds any. */
  lemma SendEpochHeld(net: Net, steps: seq<Step>, x: Side)
    requires net.WellFormed()
    ensures var v := Run(net, steps).At(x).view;
            match v.sendEpoch
            case Some(e) => Holds(v.epochs, e)
            case None => v.epochs == []
  {
    var s := Run(net, steps);
    RunKeepsInv(net, steps);
    assert SideInv(net, s, x);
    if s.At(x).hist != [] { SendsNewest(net, s, x); }
  }

  // ---- authenticity ----

  /** Whatever either end opened was sealed by the other one: the same tag and text, the same
      counter, and an epoch assigned to the process that sealed and the one that opened. */
  lemma OpenedWasSealed(net: Net, steps: seq<Step>, k: nat)
    requires net.WellFormed() && k < |Run(net, steps).openings|
    ensures var s := Run(net, steps); var o := s.openings[k];
            && (exists i :: 0 <= i < |s.log| && Opens(s, o, s.log[i]))
            && o.epoch in s.births && s.births[o.epoch].Party(o.to) == o.inc && s.births[o.epoch].Party(Other(o.to)) == o.session
  {
    var s := Run(net, steps);
    RunKeepsInv(net, steps);
    assert OpeningInv(s, s.openings[k]);
    var i :| 0 <= i < |s.log| && Opens(s, s.openings[k], s.log[i]);
    assert RecordInv(net, s, s.log[i]);
  }

  /** Over every run an end holds exactly the newest epochs its process has stored, as many as
      it keeps and at least one. */
  lemma NewestHeld(net: Net, steps: seq<Step>, x: Side)
    requires net.WellFormed()
    ensures var e := Run(net, steps).At(x); e.view.epochs == Newest(e.hist, Max(net.CfgOf(x).keep, 1))
  {
    RunKeepsInv(net, steps);
    assert SideInv(net, Run(net, steps), x);
  }

  // ---- sealing reaches the other end ----

  /** `f` carries frame `r` as it was sealed; the header's entries may come in any order. */
  ghost predicate Carries(f: Frame, r: Record) {
    && f.tag == Some(r.sealed.tag) && f.keyId == r.keyId && f.ct == r.sealed.ct
    && Distinct(f.header) && EntriesFit(f.header) && SameUpToTag(r.sealed.header, f.header)
  }

  lemma CarriedVerifies(net: Net, s: Sys, x: Side, f: Frame, r: Record)
    requires net.WellFormed() && RecordInv(net, s, r) && Carries(f, r) && r.from == Other(x)
    requires SecretFor(s.At(x).view.epochs, r.epoch) == Some(r.secret)
    ensures Verifies(net, s, x, f)
    ensures f.Epoch() == Some(r.epoch) && f.Counter() == Some(r.counter) && f.SessionId() == Some(r.inc)
    ensures f.ct.plain == r.plain
  {
    assert HDR_E2E_EPOCH[4] != HDR_E2E_TAG[4] && HDR_E2E_CTR[4] != HDR_E2E_TAG[4] && HDR_INCARNATION[0] != HDR_E2E_TAG[0];
    SameNumbers(r.sealed.header, f.header, HDR_E2E_EPOCH, 10, U32);
    SameNumbers(r.sealed.header, f.header, HDR_E2E_CTR, 10, U64);
    SameNumbers(r.sealed.header, f.header, HDR_INCARNATION, 16, U64);
    AadCanonical(net.Id(r.from), net.Id(Other(r.from)), r.sealed.header, net.Id(Other(x)), net.Id(x), f.header);
  }

  /** The window accepts a counter above everything sealed so far unless it retired the session. */
  lemma NextCounterAccepted(net: Net, s: Sys, x: Side, counter: nat)
    requires WindowInv(net, s, x) && counter > s.At(Other(x)).view.counter
    ensures Accepts(s.At(x).view.replay, s.At(Other(x)).inc, counter)
            <==> s.At(Other(x)).inc !in s.At(x).view.replay.retired
  {
  }

  /** The plaintext `x` gets out of the frame `r`: exactly one more opening. */
  ghost predicate OpensTo(s: Sys, s': Sys, x: Side, r: Record) {
    s'.openings == s.openings + [Opening(x, s.At(x).inc, r.sealed.tag, r.plain, r.epoch, r.inc, r.counter)]
  }

  /**
   What an end seals, the other end opens to the same text, if it holds the epoch it was
   sealed under, exactly when its window has not retired the sending process.
   */
  lemma SealedOpens(net: Net, s: Sys, z: Side, keyId: Text, header: Entries, plain: Text, f: Frame)
    requires net.WellFormed() && Inv(net, s) && Seals(net, s, z, keyId, header)
    requires Holds(s.At(Other(z)).view.epochs, s.At(z).hist[|s.At(z).hist| - 1].0)
    requires Carries(f, Sealing(net, s, z, keyId, header, plain))
    ensures var s1 := EmitStep(net, s, z, keyId, header, plain);
            var s2 := DeliverStep(net, s1, Other(z), f);
            OpensTo(s1, s2, Other(z), Sealing(net, s, z, keyId, header, plain))
            <==> s.At(z).inc !in s.At(Other(z)).view.replay.retired
  {
    var y, r := Other(z), Sealing(net, s, z, keyId, header, plain);
    var s1 := EmitStep(net, s, z, keyId, header, plain);
    assert SideInv(net, s, z) && SideInv(net, s, y);
    Emitted(net, s, z, keyId, header, plain);
    SealingInv(net, s, s1, z, keyId, header, plain);
    HeldAlike(net, s, z);
    CarriedVerifies(net, s1, y, f, r);
    assert s1.log[|s.log|] == r;
    Delivered(net, s1, y, f);
    NextCounterAccepted(net, s, y, r.counter);
  }

  lemma UnheldUnverified(net: Net, s: Sys, y: Side, f: Frame, r: Record)
    requires RecordInv(net, s, r) && Carries(f, r) && !Holds(s.At(y).view.epochs, r.epoch)
    ensures !Verifies(net, s, y, f)
  {
    assert HDR_E2E_EPOCH[4] != HDR_E2E_TAG[4];
    SameNumbers(r.sealed.header, f.header, HDR_E2E_EPOCH, 10, U32);
  }

  lemma OtherUnmoved(s: Sys, s': Sys, z: Side, r: Record)
    requires Logs(s, s', z, r)
    ensures s'.At(Other(z)) == s.At(Other(z))
  {
  }

  /** A frame sealed under an epoch the other end does not hold changes nothing there. */
  lemma SealedUnknown(net: Net, s: Sys, z: Side, keyId: Text, header: Entries, plain: Text, f: Frame)
    requires net.WellFormed() && Inv(net, s) && Seals(net, s, z, keyId, header)
    requires !Holds(s.At(Other(z)).view.epochs, s.At(z).hist[|s.At(z).hist| - 1].0)
    requires Carries(f, Sealing(net, s, z, keyId, header, plain))
    ensures var s1 := EmitStep(net, s, z, keyId, header, plain); DeliverStep(net, s1, Other(z), f) == s1
  {
    var r, s1 := Sealing(net, s, z, keyId, header, plain), EmitStep(net, s, z, keyId, header, plain);
    assert SideInv(net, s, z);
    Emitted(net, s, z, keyId, header, plain);
    SealingInv(net, s, s1, z, keyId, header, plain);
    OtherUnmoved(s, s1, z, r);
    UnheldUnverified(net, s1, Other(z), f, r);
    RefusedQuiet(net, s1, Other(z), f);
  }

  /** Without that proviso: it is opened exactly when the epoch is held and the process not
      retired. */
  lemma SealedOpensExactly(net: Net, s: Sys, z: Side, keyId: Text, header: Entries, plain: Text, f: Frame)
    requires net.WellFormed() && Inv(net, s) && Seals(net, s, z, keyId, header)
    requires Carries(f, Sealing(net, s, z, keyId, header, plain))
    ensures var s1 := EmitStep(net, s, z, keyId, header, plain);
            var s2 := DeliverStep(net, s1, Other(z), f);
            OpensTo(s1, s2, Other(z), Sealing(net, s, z, keyId, header, plain))
            <==> && Holds(s.At(Other(z)).view.epochs, s.At(z).hist[|s.At(z).hist| - 1].0)
                 && s.At(z).inc !in s.At(Other(z)).view.replay.retired
  {
    if Holds(s.At(Other(z)).view.epochs, s.At(z).hist[|s.At(z).hist| - 1].0) {
      SealedOpens(net, s, z, keyId, header, plain, f);
    } else {
      SealedUnknown(net, s, z, keyId, header, plain, f);
    }
  }

  /** What the other end holds for the epoch one end sends with. */
  lemma HeldAlike(net: Net, s: Sys, z: Side)
    requires Inv(net, s) && s.At(z).hist != []
    requires Holds(s.At(Other(z)).view.epochs, s.At(z).hist[|s.At(z).hist| - 1].0)
    ensures var last := s.At(z).hist[|s.At(z).hist| - 1];
            SecretFor(s.At(Other(z)).view.epochs, last.0) == Some(last.1)
  {
    var y, last := Other(z), s.At(z).hist[|s.At(z).hist| - 1];
    assert SideInv(net, s, z) && SideInv(net, s, y);
    SendsNewest(net, s, z);
    var i := FoundSecret(net, s, y, last.0);
    assert Assigned(s, y, s.At(y).inc, s.At(y).hist[i]);
  }
}
