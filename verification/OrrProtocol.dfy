/**
 Bootstrap, re-bootstrap and rotation between an initiating ORR (the smaller id of the pair)
 and its responder, as a transition system (orr/src/bootstrap.rs, orr/src/rotation.rs,
 `establish_secret` in orr/src/grpc_server.rs, `trigger_passive_rebootstrap` in
 orr/src/service.rs).

 Any number of tasks run at the initiator. Code between two awaits is one step. A remote
 call takes effect before it returns, or never; its reply may be lost. Either end may
 restart, which empties its registry; a responder that restarts has a new key pair. A MAC
 verifies exactly under the bootstrap secret it was made with. Key pairs and encapsulation
 coins never repeat.
 */
module OrrProtocol {
  import opened Wrappers
  import opened Bytes
  import opened Headers
  import opened Symbolic
  import opened OrrRegistry

  /** Which of two ORRs encapsulates at bootstrap. */
  predicate Initiates(local: Text, peer: Text) { !(local == peer || Less(peer, local)) }

  lemma OneInitiator(a: Text, b: Text)
    requires a != b
    ensures Initiates(a, b) <==> !Initiates(b, a)
    ensures Initiates(a, b) <==> Less(a, b)
  {
    LessTotal(a, b);
    if Less(a, b) && Less(b, a) {
      LessTransitive(a, b, a);
      LessTotal(a, a);
    }
  }

  datatype Refusal = NoBootstrap | BadMac | NoKey

  /** The task an establishment belongs to; the bootstrap loop keeps the key it started with. */
  datatype Kind = Booting(pk: nat) | Rotating | Passive

  datatype Task =
    | Waiting(pk: nat)
    | Refetching(kind: Kind)
    | Establishing(kind: Kind, ct: KemCiphertext, landed: bool)
    | Asking(boot: Secret, epoch: nat, asked: Option<Result<nat, Refusal>>)
    | Confirming(boot: Secret, epoch: nat, ct: KemCiphertext, confirmed: Option<Result<(), Refusal>>)

  /** The initiator, the responder and what is in flight. `lastOk` is the outcome of the last
      establishment that came back. */
  datatype Pair = Pair(i: Reg, r: Reg, rKey: nat, rKeys: set<nat>, tasks: map<nat, Task>,
                       nextKey: nat, nextCoin: nat, lastOk: bool)

  datatype Keeps = Keeps(initiator: nat, responder: nat)

  const INITIAL: Pair := Pair(EMPTY, EMPTY, 0, {0}, map[], 1, 0, false)

  datatype Step =
    | PutPk(pk: nat)
    | SpawnBoot(t: nat)
    | Attempt(t: nat)
    | Refetch(t: nat, pk: nat)
    | RefetchFail(t: nat)
    | Land(t: nat)
    | Return(t: nat, lost: bool)
    | StartRotation(t: nat)
    | StartPassive(t: nat)
    | RestartInitiator
    | RestartResponder

  /** The epoch the initiator has had confirmed. */
  function Confirmed(g: Reg): nat { if g.send.Some? then g.send.value else 0 }

  function SharedBy(ct: KemCiphertext): Secret { Shared(ct.key, ct.coin) }

  // ---- the responder's handlers ----

  function EstablishSecret(r: Reg, key: nat, ct: KemCiphertext): Reg {
    Reset(r, Decap(key, ct))
  }

  ghost function RequestEphemeralKey(r: Reg, boot: Secret, epoch: nat, esk: nat): (Reg, Result<nat, Refusal>) {
    if r.boot.None? then (r, Err(NoBootstrap))
    else if r.boot.value != boot then (r, Err(BadMac))
    else (WithEsk(r, epoch, esk), Ok(esk))
  }

  ghost function EstablishEphemeral(r: Reg, boot: Secret, epoch: nat, ct: KemCiphertext, keep: nat): (Reg, Result<(), Refusal>) {
    if r.boot.None? then (r, Err(NoBootstrap))
    else if r.boot.value != boot then (r, Err(BadMac))
    else if epoch !in r.esks then (r, Err(NoKey))
    else (Pruned(WithMaster(r.(esks := r.esks - {epoch}), epoch, Decap(r.esks[epoch], ct)), keep), Ok(()))
  }

  // ---- the initiator's steps ----

  function Done(s: Pair, t: nat): Pair {
    s.(tasks := s.tasks - {t}, i := s.i.(inflight := false))
  }

  function AttemptStep(s: Pair, t: nat): Pair {
    if t !in s.tasks || !s.tasks[t].Waiting? then s
    else if s.i.boot.Some? then s.(tasks := s.tasks - {t})
    else if s.i.inflight then s
    else
      var pk := s.tasks[t].pk;
      s.(i := s.i.(inflight := true), nextCoin := s.nextCoin + 1,
         tasks := s.tasks[t := Establishing(Booting(pk), KemCiphertext(pk, s.nextCoin), false)])
  }

  function RefetchStep(s: Pair, t: nat, pk: nat): Pair {
    if t !in s.tasks || !s.tasks[t].Refetching? || pk !in s.rKeys then s else
    s.(i := s.i.(pk := Some(pk)), nextCoin := s.nextCoin + 1,
       tasks := s.tasks[t := Establishing(s.tasks[t].kind, KemCiphertext(pk, s.nextCoin), false)])
  }

  ghost function LandStep(keeps: Keeps, s: Pair, t: nat): Pair {
    if t !in s.tasks then s else
    match s.tasks[t]
    case Establishing(kind, ct, landed) =>
      if landed then s
      else s.(r := EstablishSecret(s.r, s.rKey, ct), tasks := s.tasks[t := Establishing(kind, ct, true)])
    case Asking(boot, epoch, asked) =>
      if asked.Some? then s else
      var (r, reply) := RequestEphemeralKey(s.r, boot, epoch, s.nextKey);
      s.(r := r, nextKey := s.nextKey + 1, tasks := s.tasks[t := Asking(boot, epoch, Some(reply))])
    case Confirming(boot, epoch, ct, confirmed) =>
      if confirmed.Some? then s else
      var (r, reply) := EstablishEphemeral(s.r, boot, epoch, ct, keeps.responder);
      s.(r := r, tasks := s.tasks[t := Confirming(boot, epoch, ct, Some(reply))])
    case _ => s
  }

  /** After a refusal of the bootstrap secret the rotation task bootstraps again. */
  function Refused(s: Pair, t: nat, why: Refusal): Pair {
    if why == NoKey then Done(s, t) else s.(tasks := s.tasks[t := Refetching(Rotating)])
  }

  ghost function ReturnStep(keeps: Keeps, s: Pair, t: nat, lost: bool): Pair {
    if t !in s.tasks then s else
    match s.tasks[t]
    case Establishing(kind, ct, landed) =>
      if landed && !lost then Done(s.(i := Reset(s.i, SharedBy(ct)), lastOk := true), t)
      else if kind.Booting? then
        s.(lastOk := false, i := s.i.(inflight := false), tasks := s.tasks[t := Waiting(kind.pk)])
      else Done(s.(lastOk := false), t)
    case Asking(boot, epoch, asked) =>
      if asked.None? || lost then Done(s, t)
      else if asked.value.Err? then Refused(s, t, asked.value.error)
      else
        var ct := KemCiphertext(asked.value.value, s.nextCoin);
        s.(i := WithMaster(s.i, epoch, SharedBy(ct)), nextCoin := s.nextCoin + 1,
           tasks := s.tasks[t := Confirming(boot, epoch, ct, None)])
    case Confirming(boot, epoch, ct, confirmed) =>
      if confirmed.None? || lost then Done(s.(i := WithoutMaster(s.i, epoch)), t)
      else if confirmed.value.Err? then Refused(s.(i := WithoutMaster(s.i, epoch)), t, confirmed.value.error)
      else Done(s.(i := Pruned(s.i.(send := Some(epoch)), keeps.initiator)), t)
    case _ => s
  }

  function StartRotationStep(s: Pair, t: nat): Pair {
    if t in s.tasks || s.i.inflight || s.i.boot.None? then s else
    s.(i := s.i.(inflight := true), tasks := s.tasks[t := Asking(s.i.boot.value, Confirmed(s.i) + 1, None)])
  }

  function StartPassiveStep(s: Pair, t: nat): Pair {
    if t in s.tasks || s.i.inflight || s.i.pk.None? then s else
    s.(i := Cleared(s.i).(inflight := true), tasks := s.tasks[t := Refetching(Passive)])
  }

  ghost function Next(keeps: Keeps, s: Pair, step: Step): Pair {
    match step
    case PutPk(pk) => if pk in s.rKeys then s.(i := s.i.(pk := Some(pk))) else s
    case SpawnBoot(t) =>
      if t in s.tasks || s.i.pk.None? || s.i.boot.Some? then s else s.(tasks := s.tasks[t := Waiting(s.i.pk.value)])
    case Attempt(t) => AttemptStep(s, t)
    case Refetch(t, pk) => RefetchStep(s, t, pk)
    case RefetchFail(t) => if t in s.tasks && s.tasks[t].Refetching? then Done(s, t) else s
    case Land(t) => LandStep(keeps, s, t)
    case Return(t, lost) => ReturnStep(keeps, s, t, lost)
    case StartRotation(t) => StartRotationStep(s, t)
    case StartPassive(t) => StartPassiveStep(s, t)
    case RestartInitiator => s.(i := EMPTY, tasks := map[], lastOk := false)
    case RestartResponder => s.(r := EMPTY, rKey := s.nextKey, rKeys := s.rKeys + {s.nextKey}, nextKey := s.nextKey + 1)
  }

  ghost function After(keeps: Keeps, s: Pair, steps: seq<Step>): Pair {
    if steps == [] then s else Next(keeps, After(keeps, s, steps[..|steps| - 1]), steps[|steps| - 1])
  }

  ghost function Run(keeps: Keeps, steps: seq<Step>): Pair { After(keeps, INITIAL, steps) }
}
