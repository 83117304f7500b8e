/** What every run of bootstrap and rotation keeps. */
module OrrInvariant {
  import opened Wrappers
  import opened Symbolic
  import opened OrrRegistry
  import opened OrrProtocol

  /** The task holds the establishment flag. */
  predicate Holding(k: Task) { !k.Waiting? }

  ghost predicate HolderAt(s: Pair, t: nat) { t in s.tasks && Holding(s.tasks[t]) }

  /** One establishment at a time, and the flag says whether there is one. */
  ghost predicate Exclusive(s: Pair) {
    && (forall t, u :: HolderAt(s, t) && HolderAt(s, u) ==> t == u)
    && (s.i.inflight <==> exists t :: HolderAt(s, t))
  }

  /** Both ends have the bootstrap secret of the same establishment. */
  ghost predicate Synced(s: Pair) { s.i.boot.Some? && s.i.boot == s.r.boot }

  function CoinOf(x: Secret): nat {
    match x case Shared(_, coin) => coin case Rejected(_, ct) => ct.coin
  }

  ghost predicate BaseInv(s: Pair) {
    && s.rKey in s.rKeys && (forall k :: k in s.rKeys ==> k < s.nextKey)
    && (s.i.pk.Some? ==> s.i.pk.value in s.rKeys)
    && (match s.i.boot
        case Some(b) => b.Shared? && b.key in s.rKeys && b.coin < s.nextCoin
        case None => s.i.masters == map[] && s.i.send == None)
    && (s.r.boot.Some? ==> CoinOf(s.r.boot.value) < s.nextCoin && (s.r.boot.value.Shared? ==> s.r.boot.value.key == s.rKey))
    && s.r.send == None && (forall e :: e in s.r.masters ==> CoinOf(s.r.masters[e]) < s.nextCoin)
  }

  /** The provisional epoch exists only while its confirmation is awaited. */
  ghost predicate Confirms(s: Pair) { exists t :: HolderAt(s, t) && s.tasks[t].Confirming? }

  ghost predicate InitiatorInv(s: Pair) {
    s.i.boot.Some? ==>
      && Confirmed(s.i) in s.i.masters
      && (forall e :: e in s.i.masters ==> e <= Confirmed(s.i) + 1)
      && (Confirmed(s.i) + 1 in s.i.masters ==> Confirms(s))
  }

  /** With a common bootstrap secret, the responder has the confirmed epoch, at most one beyond
      it, and every epoch up to it that both have is the same at both. */
  ghost predicate ResponderInv(s: Pair) {
    Synced(s) ==>
      && Confirmed(s.i) in s.r.masters
      && (forall e :: e in s.r.masters ==> e <= Confirmed(s.i) + 1)
      && (forall e :: e in s.r.esks ==> e <= Confirmed(s.i) + 1)
      && (forall e :: e in s.i.masters && e in s.r.masters && e <= Confirmed(s.i) ==> s.i.masters[e] == s.r.masters[e])
  }

  ghost predicate EstablishingInv(s: Pair, ct: KemCiphertext, landed: bool) {
    && ct.key in s.rKeys && ct.coin < s.nextCoin
    && (s.i.boot.Some? ==> CoinOf(s.i.boot.value) != ct.coin)
    && (!landed && s.r.boot.Some? ==> CoinOf(s.r.boot.value) != ct.coin)
    && (landed && ct.key == s.rKey ==>
          s.r.boot == Some(SharedBy(ct)) && s.r.masters == map[0 := SharedBy(ct)] && s.r.esks == map[])
  }

  ghost predicate AskingInv(s: Pair, boot: Secret, epoch: nat, asked: Option<Result<nat, Refusal>>) {
    && s.i.boot == Some(boot) && epoch == Confirmed(s.i) + 1
    && (Synced(s) && asked.Some? ==> asked.value.Ok? && epoch in s.r.esks && s.r.esks[epoch] == asked.value.value)
  }

  ghost predicate ConfirmingInv(s: Pair, boot: Secret, epoch: nat, ct: KemCiphertext, confirmed: Option<Result<(), Refusal>>) {
    && s.i.boot == Some(boot) && epoch == Confirmed(s.i) + 1
    && epoch in s.i.masters && s.i.masters[epoch] == SharedBy(ct)
    && ct.coin < s.nextCoin
    && (confirmed.None? && epoch in s.r.masters ==> s.r.masters[epoch] != SharedBy(ct))
    && (Synced(s) && confirmed.None? ==> epoch in s.r.esks && s.r.esks[epoch] == ct.key)
    && (Synced(s) && confirmed.Some? ==> confirmed.value.Ok? && epoch in s.r.masters && s.r.masters[epoch] == SharedBy(ct))
  }

  ghost predicate TaskInv(s: Pair, k: Task) {
    match k
    case Waiting(pk) => pk in s.rKeys
    case Refetching(kind) => !kind.Booting?
    case Establishing(kind, ct, landed) => (kind.Booting? ==> kind.pk in s.rKeys) && EstablishingInv(s, ct, landed)
    case Asking(boot, epoch, asked) => AskingInv(s, boot, epoch, asked)
    case Confirming(boot, epoch, ct, confirmed) => ConfirmingInv(s, boot, epoch, ct, confirmed)
  }

  ghost predicate TasksInv(s: Pair) { forall t :: t in s.tasks ==> TaskInv(s, s.tasks[t]) }

  /** An establishment has reached the responder but not come back. */
  ghost predicate Landed(s: Pair) {
    exists t :: HolderAt(s, t) && s.tasks[t].Establishing? && s.tasks[t].landed
  }

  ghost predicate LastInv(s: Pair) {
    s.lastOk && s.i.boot.Some? && s.i.boot.value.Shared? && s.i.boot.value.key == s.rKey && !Landed(s) ==> s.r.boot == s.i.boot
  }

  ghost predicate Inv(s: Pair) {
    Exclusive(s) && BaseInv(s) && InitiatorInv(s) && ResponderInv(s) && TasksInv(s) && LastInv(s)
  }

  lemma InitialInv()
    ensures Inv(INITIAL)
  {
  }

  /** The tasks but `t` are as they were. */
  ghost predicate OthersKept(s: Pair, s': Pair, t: nat) {
    forall u :: u != t ==> (u in s'.tasks <==> u in s.tasks) && (u in s.tasks ==> s'.tasks[u] == s.tasks[u])
  }

  /** A holder moves on and stays the holder. */
  lemma HolderMoves(s: Pair, s': Pair, t: nat)
    requires Exclusive(s) && HolderAt(s, t) && HolderAt(s', t) && OthersKept(s, s', t) && s'.i.inflight
    ensures Exclusive(s')
    ensures forall u :: HolderAt(s', u) ==> u == t
  {
    assert forall u :: u != t ==> (HolderAt(s', u) <==> HolderAt(s, u));
  }

  /** A holder gives the flag up. */
  lemma HolderLeaves(s: Pair, s': Pair, t: nat)
    requires Exclusive(s) && HolderAt(s, t) && !HolderAt(s', t) && OthersKept(s, s', t) && !s'.i.inflight
    ensures Exclusive(s')
    ensures forall u :: !HolderAt(s', u)
  {
    assert forall u :: u != t ==> (HolderAt(s', u) <==> HolderAt(s, u));
  }

  /** A task takes the free flag. */
  lemma HolderEnters(s: Pair, s': Pair, t: nat)
    requires Exclusive(s) && !s.i.inflight && HolderAt(s', t) && OthersKept(s, s', t) && s'.i.inflight
    ensures Exclusive(s')
    ensures forall u :: HolderAt(s', u) ==> u == t
    ensures forall u :: !HolderAt(s, u)
  {
    assert forall u :: u != t ==> (HolderAt(s', u) <==> HolderAt(s, u));
  }

  /** With `t` settled and the others waiting, all tasks are. */
  lemma TasksKept(s: Pair, s': Pair, t: nat)
    requires TasksInv(s) && OthersKept(s, s', t) && s.rKeys <= s'.rKeys
    requires forall u :: u != t && u in s'.tasks ==> !HolderAt(s', u)
    requires t in s'.tasks ==> TaskInv(s', s'.tasks[t])
    ensures TasksInv(s')
  {
    forall u | u in s'.tasks ensures TaskInv(s', s'.tasks[u]) {
      if u != t { assert TaskInv(s, s.tasks[u]) && !HolderAt(s', u); }
    }
  }

  lemma SpawnKeepsInv(keeps: Keeps, s: Pair, t: nat)
    requires Inv(s)
    ensures Inv(Next(keeps, s, SpawnBoot(t)))
  {
    var s' := Next(keeps, s, SpawnBoot(t));
    assert forall u :: HolderAt(s', u) <==> HolderAt(s, u);
  }

  lemma PutPkKeepsInv(keeps: Keeps, s: Pair, pk: nat)
    requires Inv(s)
    ensures Inv(Next(keeps, s, PutPk(pk)))
  {
    var s' := Next(keeps, s, PutPk(pk));
    assert forall u :: HolderAt(s', u) <==> HolderAt(s, u);
  }

  lemma AttemptKeepsInv(s: Pair, t: nat)
    requires Inv(s)
    ensures Inv(AttemptStep(s, t))
  {
    var s' := AttemptStep(s, t);
    if t in s.tasks && s.tasks[t].Waiting? {
      assert TaskInv(s, s.tasks[t]);
      if s.i.boot.Some? {
        assert forall u :: HolderAt(s', u) <==> HolderAt(s, u);
      } else if !s.i.inflight {
        HolderEnters(s, s', t);
        TasksKept(s, s', t);
      }
    }
  }

  lemma RefetchKeepsInv(s: Pair, t: nat, pk: nat)
    requires Inv(s)
    ensures Inv(RefetchStep(s, t, pk))
  {
    var s' := RefetchStep(s, t, pk);
    if s' != s {
      assert HolderAt(s, t) && TaskInv(s, s.tasks[t]);
      HolderMoves(s, s', t);
      TasksKept(s, s', t);
    }
  }

  /** Giving the flag up without touching any secret. */
  lemma DoneKeepsInv(s: Pair, t: nat)
    requires Inv(s) && HolderAt(s, t) && !s.tasks[t].Confirming? && !s.tasks[t].Establishing?
    ensures Inv(Done(s, t))
  {
    var s' := Done(s, t);
    HolderLeaves(s, s', t);
    TasksKept(s, s', t);
    assert forall u :: HolderAt(s, u) ==> u == t;
  }

  lemma StartRotationKeepsInv(s: Pair, t: nat)
    requires Inv(s)
    ensures Inv(StartRotationStep(s, t))
  {
    var s' := StartRotationStep(s, t);
    if s' != s {
      HolderEnters(s, s', t);
      TasksKept(s, s', t);
    }
  }

  lemma StartPassiveKeepsInv(s: Pair, t: nat)
    requires Inv(s)
    ensures Inv(StartPassiveStep(s, t))
  {
    var s' := StartPassiveStep(s, t);
    if s' != s {
      HolderEnters(s, s', t);
      TasksKept(s, s', t);
    }
  }

  lemma RestartsKeepInv(keeps: Keeps, s: Pair)
    requires Inv(s)
    ensures Inv(Next(keeps, s, RestartInitiator)) && Inv(Next(keeps, s, RestartResponder))
  {
    var a, b := Next(keeps, s, RestartInitiator), Next(keeps, s, RestartResponder);
    assert forall u :: !HolderAt(a, u);
    assert forall u :: HolderAt(b, u) <==> HolderAt(s, u);
    forall u | u in b.tasks ensures TaskInv(b, b.tasks[u]) { assert TaskInv(s, s.tasks[u]); }
  }

  // ---- the remote calls ----

  lemma LandEstablishing(keeps: Keeps, s: Pair, t: nat)
    requires Inv(s) && HolderAt(s, t) && s.tasks[t].Establishing?
    ensures Inv(LandStep(keeps, s, t))
  {
    var s' := LandStep(keeps, s, t);
    assert TaskInv(s, s.tasks[t]);
    HolderMoves(s, s', t);
    if !s.tasks[t].landed {
      assert Landed(s') by { assert HolderAt(s', t) && s'.tasks[t].landed; }
      TasksKept(s, s', t);
    }
  }

  lemma LandAsking(keeps: Keeps, s: Pair, t: nat)
    requires Inv(s) && HolderAt(s, t) && s.tasks[t].Asking?
    ensures Inv(LandStep(keeps, s, t))
  {
    var s', k := LandStep(keeps, s, t), s.tasks[t];
    assert TaskInv(s, k);
    HolderMoves(s, s', t);
    if k.asked.None? {
      if Synced(s) {
        assert Confirmed(s.i) + 1 == k.epoch;
        EskKept(s.r.esks[k.epoch := s.nextKey], k.epoch);
      }
      TasksKept(s, s', t);
    }
  }

  lemma EskKept(m: map<nat, nat>, k: nat)
    requires k in m && forall j :: j in m ==> j <= k
    ensures k in KeepLargest(m, MAX_EPHEMERAL_PER_PEER)
  {
    KeepsNewest(m, MAX_EPHEMERAL_PER_PEER, k);
  }

  /** The responder installs the new epoch and keeps the confirmed one. */
  lemma Installed(s: Pair, boot: Secret, epoch: nat, ct: KemCiphertext, keep: nat)
    requires Synced(s) && ResponderInv(s) && ConfirmingInv(s, boot, epoch, ct, None)
    ensures var (r, reply) := EstablishEphemeral(s.r, boot, epoch, ct, keep); var c := Confirmed(s.i);
            && reply.Ok? && r.boot == s.r.boot && r.send == s.r.send
            && (forall e :: e in r.masters ==> e == epoch || (e in s.r.masters && r.masters[e] == s.r.masters[e]))
            && c in r.masters && epoch in r.masters && r.masters[epoch] == SharedBy(ct)
            && (forall e :: e in r.masters ==> e <= c + 1 && (e <= c ==> e in s.r.masters && r.masters[e] == s.r.masters[e]))
            && (forall e :: e in r.esks ==> e <= c + 1)
  {
    PrunedNewest(WithMaster(s.r.(esks := s.r.esks - {epoch}), epoch, SharedBy(ct)), keep, Confirmed(s.i));
  }

  lemma LandConfirming(keeps: Keeps, s: Pair, t: nat)
    requires Inv(s) && HolderAt(s, t) && s.tasks[t].Confirming?
    ensures Inv(LandStep(keeps, s, t))
  {
    var s', k := LandStep(keeps, s, t), s.tasks[t];
    assert TaskInv(s, k);
    HolderMoves(s, s', t);
    if k.confirmed.None? {
      assert Confirms(s') by { assert HolderAt(s', t) && s'.tasks[t].Confirming?; }
      ConfirmingLanded(keeps, s, s', t);
      TasksKept(s, s', t);
    }
  }

  /** What the confirmation does at the responder, whether or not the ends agree. */
  lemma ConfirmingLanded(keeps: Keeps, s: Pair, s': Pair, t: nat)
    requires BaseInv(s) && ResponderInv(s) && HolderAt(s, t) && s.tasks[t].Confirming? && s.tasks[t].confirmed.None?
    requires TaskInv(s, s.tasks[t]) && s' == LandStep(keeps, s, t)
    ensures BaseInv(s') && ResponderInv(s') && TaskInv(s', s'.tasks[t]) && s'.r.boot == s.r.boot
  {
    var k := s.tasks[t];
    if Synced(s) { Installed(s, k.boot, k.epoch, k.ct, keeps.responder); }
  }

  lemma LandKeepsInv(keeps: Keeps, s: Pair, t: nat)
    requires Inv(s)
    ensures Inv(LandStep(keeps, s, t))
  {
    if HolderAt(s, t) {
      match s.tasks[t]
      case Establishing(_, _, _) => LandEstablishing(keeps, s, t);
      case Asking(_, _, _) => LandAsking(keeps, s, t);
      case Confirming(_, _, _, _) => LandConfirming(keeps, s, t);
      case Refetching(_) =>
    }
  }

  // ---- the replies ----

  lemma ReturnEstablishing(keeps: Keeps, s: Pair, t: nat, lost: bool)
    requires Inv(s) && HolderAt(s, t) && s.tasks[t].Establishing?
    ensures Inv(ReturnStep(keeps, s, t, lost))
  {
    var s', k := ReturnStep(keeps, s, t, lost), s.tasks[t];
    assert TaskInv(s, k);
    HolderLeaves(s, s', t);
    TasksKept(s, s', t);
    assert forall u :: HolderAt(s, u) ==> u == t;
  }

  lemma RefusedKeepsInv(s: Pair, t: nat, why: Refusal)
    requires Inv(s) && HolderAt(s, t) && s.tasks[t].Asking?
    ensures Inv(Refused(s, t, why))
  {
    if why == NoKey {
      DoneKeepsInv(s, t);
    } else {
      var s' := Refused(s, t, why);
      HolderMoves(s, s', t);
      TasksKept(s, s', t);
      assert forall u :: HolderAt(s, u) ==> u == t;
    }
  }

  lemma ReturnAsking(keeps: Keeps, s: Pair, t: nat, lost: bool)
    requires Inv(s) && HolderAt(s, t) && s.tasks[t].Asking?
    ensures Inv(ReturnStep(keeps, s, t, lost))
  {
    var s', k := ReturnStep(keeps, s, t, lost), s.tasks[t];
    assert TaskInv(s, k);
    if k.asked.None? || lost {
      DoneKeepsInv(s, t);
    } else if k.asked.value.Err? {
      RefusedKeepsInv(s, t, k.asked.value.error);
    } else {
      HolderMoves(s, s', t);
      assert Confirms(s') by { assert HolderAt(s', t) && s'.tasks[t].Confirming?; }
      assert Synced(s') <==> Synced(s);
      TasksKept(s, s', t);
      assert forall u :: HolderAt(s, u) ==> u == t;
    }
  }

  /** Without the provisional epoch the confirmation may as well not have been asked for. */
  lemma Withdrawn(s: Pair, t: nat)
    requires Inv(s) && HolderAt(s, t) && s.tasks[t].Confirming?
    ensures var k := s.tasks[t];
            Inv(s.(i := WithoutMaster(s.i, k.epoch), tasks := s.tasks[t := Asking(k.boot, k.epoch, None)]))
  {
    var k := s.tasks[t];
    var s' := s.(i := WithoutMaster(s.i, k.epoch), tasks := s.tasks[t := Asking(k.boot, k.epoch, None)]);
    assert TaskInv(s, k);
    HolderMoves(s, s', t);
    TasksKept(s, s', t);
    assert forall u :: HolderAt(s, u) ==> u == t;
  }

  lemma CommittedMasters(g: Reg, epoch: nat, keep: nat)
    requires epoch == Confirmed(g) + 1 && epoch in g.masters && Confirmed(g) in g.masters
    requires forall e :: e in g.masters ==> e <= epoch
    ensures var h := Pruned(g.(send := Some(epoch)), keep);
            && epoch in h.masters && h.boot == g.boot && h.send == Some(epoch) && h.pk == g.pk
            && forall e :: e in h.masters ==> e <= epoch && e in g.masters && h.masters[e] == g.masters[e]
  {
    PrunedNewest(g.(send := Some(epoch)), keep, Confirmed(g));
  }

  /** Committing the epoch keeps what the responder has in common. */
  lemma Committed(keeps: Keeps, s: Pair, t: nat)
    requires Inv(s) && HolderAt(s, t) && s.tasks[t].Confirming?
    requires s.tasks[t].confirmed.Some? && s.tasks[t].confirmed.value.Ok?
    ensures Inv(Done(s.(i := Pruned(s.i.(send := Some(s.tasks[t].epoch)), keeps.initiator)), t))
  {
    var k := s.tasks[t];
    assert TaskInv(s, k);
    CommittedMasters(s.i, k.epoch, keeps.initiator);
    CommittedRest(s, Pruned(s.i.(send := Some(k.epoch)), keeps.initiator), t);
  }

  lemma CommittedRest(s: Pair, h: Reg, t: nat)
    requires Inv(s) && HolderAt(s, t) && s.tasks[t].Confirming? && TaskInv(s, s.tasks[t])
    requires s.tasks[t].confirmed.Some? && s.tasks[t].confirmed.value.Ok?
    requires var epoch := s.tasks[t].epoch;
             && epoch in h.masters && h.boot == s.i.boot && h.send == Some(epoch) && h.pk == s.i.pk
             && forall e :: e in h.masters ==> e <= epoch && e in s.i.masters && h.masters[e] == s.i.masters[e]
    ensures Inv(Done(s.(i := h), t))
  {
    var s' := Done(s.(i := h), t);
    HolderLeaves(s, s', t);
    TasksKept(s, s', t);
    assert forall u :: HolderAt(s, u) ==> u == t;
    assert Synced(s') <==> Synced(s);
  }

  lemma ReturnWithdrawn(keeps: Keeps, s: Pair, t: nat, lost: bool)
    requires Inv(s) && HolderAt(s, t) && s.tasks[t].Confirming?
    requires s.tasks[t].confirmed.None? || lost || s.tasks[t].confirmed.value.Err?
    ensures Inv(ReturnStep(keeps, s, t, lost))
  {
    var s', k := ReturnStep(keeps, s, t, lost), s.tasks[t];
    var w := s.(i := WithoutMaster(s.i, k.epoch), tasks := s.tasks[t := Asking(k.boot, k.epoch, None)]);
    Withdrawn(s, t);
    if k.confirmed.None? || lost {
      DoneKeepsInv(w, t);
      assert s' == Done(w, t);
    } else {
      RefusedKeepsInv(w, t, k.confirmed.value.error);
      assert s' == Refused(w, t, k.confirmed.value.error);
    }
  }

  lemma ReturnConfirming(keeps: Keeps, s: Pair, t: nat, lost: bool)
    requires Inv(s) && HolderAt(s, t) && s.tasks[t].Confirming?
    ensures Inv(ReturnStep(keeps, s, t, lost))
  {
    if s.tasks[t].confirmed.None? || lost || s.tasks[t].confirmed.value.Err? {
      ReturnWithdrawn(keeps, s, t, lost);
    } else {
      Committed(keeps, s, t);
    }
  }

  lemma ReturnKeepsInv(keeps: Keeps, s: Pair, t: nat, lost: bool)
    requires Inv(s)
    ensures Inv(ReturnStep(keeps, s, t, lost))
  {
    if HolderAt(s, t) {
      match s.tasks[t]
      case Establishing(_, _, _) => ReturnEstablishing(keeps, s, t, lost);
      case Asking(_, _, _) => ReturnAsking(keeps, s, t, lost);
      case Confirming(_, _, _, _) => ReturnConfirming(keeps, s, t, lost);
      case Refetching(_) =>
    }
  }

  // ---- runs ----

  lemma NextKeepsInv(keeps: Keeps, s: Pair, step: Step)
    requires Inv(s)
    ensures Inv(Next(keeps, s, step))
  {
    match step
    case PutPk(pk) => PutPkKeepsInv(keeps, s, pk);
    case SpawnBoot(t) => SpawnKeepsInv(keeps, s, t);
    case Attempt(t) => AttemptKeepsInv(s, t);
    case Refetch(t, pk) => RefetchKeepsInv(s, t, pk);
    case RefetchFail(t) => if HolderAt(s, t) && s.tasks[t].Refetching? { DoneKeepsInv(s, t); }
    case Land(t) => LandKeepsInv(keeps, s, t);
    case Return(t, lost) => ReturnKeepsInv(keeps, s, t, lost);
    case StartRotation(t) => StartRotationKeepsInv(s, t);
    case StartPassive(t) => StartPassiveKeepsInv(s, t);
    case RestartInitiator => RestartsKeepInv(keeps, s);
    case RestartResponder => RestartsKeepInv(keeps, s);
  }

  lemma {:induction false} AfterKeepsInv(keeps: Keeps, s: Pair, steps: seq<Step>)
    requires Inv(s)
    ensures Inv(After(keeps, s, steps))
  {
    if steps != [] {
      AfterKeepsInv(keeps, s, steps[..|steps| - 1]);
      NextKeepsInv(keeps, After(keeps, s, steps[..|steps| - 1]), steps[|steps| - 1]);
    }
  }

  lemma RunKeepsInv(keeps: Keeps, steps: seq<Step>)
    ensures Inv(Run(keeps, steps))
  {
    InitialInv();
    AfterKeepsInv(keeps, INITIAL, steps);
  }
}
