/**
 The end-to-end layer as it runs: the state one process keeps for one peer, updated in
 place (dkms/src/e2e.rs). Every method is proved against the function of `E2eSpec` of the
 same name.
 */
module E2e {
  import opened Wrappers
  import opened Bytes
  import opened Numerals
  import opened Symbolic
  import opened Headers
  import opened ReplayWindows
  import Spec = E2eSpec
  import opened Widths

  /** A bounded queue of key ids with a hash set beside it for the lookups. */
  class RecentKeyIds {
    var seen: set<Text>
    var order: seq<Text>

    ghost predicate Valid()
      reads this
    {
      && (forall i, j :: 0 <= i < j < |order| ==> order[i] != order[j])
      && (forall id :: id in seen <==> id in order)
      && |order| <= Spec.GUARDRAIL_WINDOW
    }

    constructor ()
      ensures Valid() && order == []
    {
      seen, order := {}, [];
    }

    /** Refuses exactly the ids in the queue; the set never drifts from the queue. */
    method Insert(id: Text) returns (accepted: bool)
      requires Valid()
      modifies this
      ensures Valid()
      ensures accepted <==> id !in old(order)
      ensures order == if accepted then Spec.PushRecent(old(order), id) else old(order)
    {
      if id in seen { return false; }
      if |order| >= Spec.GUARDRAIL_WINDOW {
        var oldest := order[0];
        assert order == [oldest] + order[1..];
        order := order[1..];
        seen := seen - {oldest};
      }
      order := order + [id];
      seen := seen + {id};
      return true;
    }

    method Clear()
      modifies this
      ensures Valid() && order == []
    {
      seen, order := {}, [];
    }
  }

  class PeerState {
    const cfg: Spec.Cfg
    const me: Text
    const peer: Text
    var epochs: Spec.Epochs
    var sendEpoch: Option<nat>
    var counter: nat
    var epochSends: nat
    const recent: RecentKeyIds
    const replay: ReplayWindow
    var pending: Option<(nat, nat)>
    var inflight: bool
    var lastAttempt: Option<nat>
    var lastResponse: Option<nat>
    var respondBurst: nat

    ghost predicate Valid()
      reads this, recent, replay
    {
      recent.Valid() && replay.Valid()
    }

    ghost function View(): Spec.PeerView
      reads this, recent, replay, replay.Repr()
    {
      Spec.PeerView(epochs, sendEpoch, counter, epochSends, recent.order, replay.View(),
                    pending, inflight, lastAttempt, lastResponse, respondBurst)
    }

    constructor (cfg: Spec.Cfg, me: Text, peer: Text)
      ensures Valid() && View() == Spec.NewPeer(cfg)
      ensures fresh(recent) && fresh(replay) && fresh(replay.Repr())
      ensures this.cfg == cfg && this.me == me && this.peer == peer
    {
      this.cfg, this.me, this.peer := cfg, me, peer;
      epochs, sendEpoch, counter, epochSends := [], None, 0, 0;
      recent := new RecentKeyIds();
      replay := new ReplayWindow(cfg.replayWindow);
      pending, inflight, lastAttempt, lastResponse, respondBurst := None, false, None, None, 4;
    }

    /** `epochs.retain(|(e, _)| *e != epoch)` */
    static method RetainOthers(q: Spec.Epochs, epoch: nat) returns (kept: Spec.Epochs)
      ensures kept == Spec.Retain(q, epoch)
    {
      kept := [];
      for i := 0 to |q|
        invariant kept + Spec.Retain(q[i..], epoch) == Spec.Retain(q, epoch)
      {
        assert q[i..] == [q[i]] + q[i + 1..];
        if q[i].0 != epoch { kept := kept + [q[i]]; }
      }
    }

    /** Drop the oldest epochs beyond the history bound. */
    method Prune()
      modifies this`epochs
      ensures epochs == Spec.Newest(old(epochs), Spec.Max(cfg.keep, 1))
    {
      ghost var all := epochs;
      var bound := if cfg.keep < 1 then 1 else cfg.keep;
      while |epochs| > bound
        invariant |epochs| <= |all| && epochs == all[|all| - |epochs|..]
        invariant |epochs| >= bound || epochs == all
      {
        epochs := epochs[1..];
      }
    }

    method Store(epoch: nat, ss: Secret)
      requires Valid()
      modifies this, recent
      ensures Valid() && View() == Spec.Stored(old(View()), epoch, ss, cfg.keep)
    {
      var others := RetainOthers(epochs, epoch);
      epochs := others + [(epoch, ss)];
      Prune();
      sendEpoch, epochSends := Some(epoch), 0;
      recent.Clear();
    }

    /** The first random draw that is neither zero nor an epoch still held. */
    method FreshEpoch(draws: seq<nat>) returns (e: nat)
      requires exists i :: 0 <= i < |draws| && draws[i] != 0 && !Spec.Holds(epochs, draws[i])
      ensures e != 0 && !Spec.Holds(epochs, e)
      ensures exists i :: 0 <= i < |draws| && draws[i] == e
                 && forall j :: 0 <= j < i ==> draws[j] == 0 || Spec.Holds(epochs, draws[j])
    {
      var i := 0;
      while true
        invariant 0 <= i <= |draws|
        invariant forall j :: 0 <= j < i ==> draws[j] == 0 || Spec.Holds(epochs, draws[j])
        decreases |draws| - i
      {
        if draws[i] != 0 && Spec.SecretFor(epochs, draws[i]).None? { return draws[i]; }
        i := i + 1;
      }
    }

    method Seal(keyId: Text, header: Entries, plain: Text) returns (r: Result<Spec.SealedKey, Spec.E2eError>)
      requires Valid()
      modifies this, recent
      ensures Valid() && (View(), r) == Spec.Seal(old(View()), me, peer, keyId, header, plain)
    {
      if sendEpoch.None? { return Err(Spec.NoEpoch); }
      var secret := Spec.SecretFor(epochs, sendEpoch.value);
      if secret.None? { return Err(Spec.NoEpoch); }
      var accepted := recent.Insert(keyId);
      if !accepted { return Err(Spec.KeyIdReuse); }
      counter := counter + 1;
      epochSends := epochSends + 1;
      var h := Headers.Insert(header, HDR_E2E_EPOCH, ToDecimal(sendEpoch.value));
      h := Headers.Insert(h, HDR_E2E_CTR, ToDecimal(counter));
      h := Headers.Remove(h, HDR_E2E_TAG);
      var okm := Spec.DeriveKey(secret.value, keyId);
      var (ct, tag) := SealDetached(okm, Derived(okm), plain, Aad(me, peer, h));
      return Ok(Spec.SealedKey(h, tag, ct));
    }

    method Open(header: Entries, tag: Option<Spec.E2eTag>, keyId: Text, ct: Spec.E2eCipher)
      returns (r: Result<Text, Spec.E2eError>)
      requires Valid()
      modifies this, replay.Repr()
      ensures Valid() && fresh(replay.Repr() - old(replay.Repr()))
      ensures (View(), r) == Spec.Open(old(View()), me, peer, header, tag, keyId, ct)
    {
      var epoch := Spec.NumberField(header, HDR_E2E_EPOCH, 10, U32);
      if epoch.None? { return Err(Spec.BadHeader); }
      var ctr := Spec.NumberField(header, HDR_E2E_CTR, 10, U64);
      if ctr.None? || tag.None? { return Err(Spec.BadHeader); }
      var session := Spec.NumberField(header, HDR_INCARNATION, 16, U64);
      if session.None? { return Err(Spec.BadHeader); }
      var secret := Spec.SecretFor(epochs, epoch.value);
      if secret.None? { return Err(Spec.UnknownEpoch); }
      var okm := Spec.DeriveKey(secret.value, keyId);
      var plain := OpenDetached(okm, Derived(okm), ct, tag.value, Aad(peer, me, Collect(header)));
      if plain.None? { return Err(Spec.BadTag); }
      var err := replay.CheckAndSet(session.value, ctr.value);
      if err.Some? { return Err(Spec.Replay(err.value)); }
      return Ok(plain.value);
    }

    method BeginRequest(key: nat, now: nat) returns (req: Spec.KemRequest)
      requires Valid()
      modifies this
      ensures Valid() && View() == Spec.Begun(old(View()), key, now)
      ensures req == Spec.KemRequest(cfg.suite, Some(key))
    {
      pending := Some((key, now));
      req := Spec.KemRequest(cfg.suite, Some(key));
    }

    method CompleteRequest(resp: Spec.KemResponse, now: nat) returns (r: Result<nat, Spec.E2eError>)
      requires Valid()
      modifies this, recent
      ensures Valid() && (View(), r) == Spec.Complete(old(View()), cfg, resp, now)
    {
      if resp.epoch == 0 || resp.suite != cfg.suite || resp.ct.None? { return Err(Spec.BadPeer); }
      if pending.None? { return Err(Spec.BadPeer); }
      var (esk, since) := pending.value;
      pending := None;
      if Spec.Elapsed(now, since) > Spec.PENDING_ESK_TTL { return Err(Spec.BadPeer); }
      Store(resp.epoch, Decap(esk, resp.ct.value));
      return Ok(resp.epoch);
    }

    method Respond(req: Spec.KemRequest, coin: nat, draws: seq<nat>, now: nat)
      returns (r: Result<Spec.KemResponse, Spec.E2eError>)
      requires Valid()
      requires exists i :: 0 <= i < |draws| && draws[i] != 0 && !Spec.Holds(epochs, draws[i])
      modifies this, recent
      ensures Valid()
      ensures r.Err? ==> forall e :: (View(), r) == Spec.Respond(old(View()), cfg, req, coin, e, now)
      ensures r.Ok? ==> r.value.epoch in draws && r.value.epoch != 0 && !Spec.Holds(old(epochs), r.value.epoch)
      ensures r.Ok? ==> (View(), r) == Spec.Respond(old(View()), cfg, req, coin, r.value.epoch, now)
    {
      if lastResponse.Some? && Spec.Elapsed(now, lastResponse.value) < Spec.AGREEMENT_MIN_INTERVAL {
        if respondBurst == 0 { return Err(Spec.BadPeer); }
        respondBurst := respondBurst - 1;
      } else {
        respondBurst := (if cfg.respondBurst < 1 then 1 else cfg.respondBurst) - 1;
        lastResponse := Some(now);
      }
      if req.suite != cfg.suite || req.epk.None? { return Err(Spec.BadPeer); }
      var (ct, ss) := Encap(req.epk.value, coin);
      var epoch := FreshEpoch(draws);
      Store(epoch, ss);
      return Ok(Spec.KemResponse(req.suite, epoch, Some(ct)));
    }

    /** `request_agreement` before the spawn, and the end of the spawned task. */
    method StartAgreement(now: nat) returns (started: bool)
      requires Valid()
      modifies this
      ensures Valid() && started == Spec.MayStart(old(View()), now)
      ensures View() == if started then Spec.Started(old(View()), now) else old(View())
    {
      if inflight { return false; }
      if lastAttempt.Some? && Spec.Elapsed(now, lastAttempt.value) < Spec.AGREEMENT_MIN_INTERVAL { return false; }
      inflight, lastAttempt := true, Some(now);
      return true;
    }

    method EndAgreement(failed: bool)
      requires Valid()
      modifies this
      ensures Valid() && View() == Spec.Ended(old(View()), failed)
    {
      inflight := false;
      if failed { pending := None; }
    }
  }
}
