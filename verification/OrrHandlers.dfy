/**
 The responder's handlers on the shared registry (orr/src/grpc_server.rs `establish_secret`,
 orr/src/rotation.rs), tied to the steps of the protocol. Ids are already in lower case.
 */
module OrrHandlers {
  import opened Wrappers
  import opened Bytes
  import opened Symbolic
  import opened OrrRegistry
  import opened OrrProtocol

  /** Authenticators under a bootstrap secret; each phase covers its own fields. */
  datatype Mac =
    | MacReq(key: Secret, epoch: nat, from: Text, peer: Text)
    | MacFin(key: Secret, epoch: nat, from: Text, peer: Text, ct: Option<KemCiphertext>)

  /** `BadDecap`: the ciphertext does not decapsulate, or not to 32 bytes. */
  datatype Denial = FieldsRequired | PeerMismatch | Unknown | BadDecap | Refused(why: Refusal)

  /** Always decapsulates and overwrites, for a peer this node knows. */
  method EstablishSecretHandler(peers: PeerRegistry, known: set<Text>, key: nat, from: Text, ct: Option<KemCiphertext>)
    returns (reply: Result<(), Denial>)
    modifies peers
    ensures reply == if from == [] then Err(FieldsRequired) else if from !in known then Err(Unknown)
                     else if ct.None? then Err(BadDecap) else Ok(())
    ensures reply.Ok? ==> peers.View(from) == EstablishSecret(old(peers.View(from)), key, ct.value)
    ensures forall q :: q != from || reply.Err? ==> peers.View(q) == old(peers.View(q))
  {
    if from == [] { return Err(FieldsRequired); }
    if from !in known { return Err(Unknown); }
    if ct.None? { return Err(BadDecap); }
    peers.ResetForBootstrap(from, Decap(key, ct.value));
    return Ok(());
  }

  /** Why a rotation message is turned away before its epoch is looked at. */
  function Screened(local: Text, from: Text, peer: Text): Option<Denial> {
    if from == [] || peer == [] then Some(FieldsRequired)
    else if peer != local then Some(PeerMismatch)
    else None
  }

  method RequestEphemeralKeyHandler(peers: PeerRegistry, local: Text, from: Text, peer: Text, epoch: nat, mac: Mac, esk: nat)
    returns (reply: Result<nat, Denial>)
    modifies peers
    ensures forall q :: q != from ==> peers.View(q) == old(peers.View(q))
    ensures reply.Err? ==> peers.View(from) == old(peers.View(from))
    ensures reply.Ok? ==> old(peers.View(from)).boot.Some? && mac == MacReq(old(peers.View(from)).boot.value, epoch, from, local)
    ensures Screened(local, from, peer).Some? ==> reply == Err(Screened(local, from, peer).value)
    ensures Screened(local, from, peer).None? ==>
              reply == match old(peers.View(from)).boot
                       case None => Err(Refused(NoBootstrap))
                       case Some(boot) => if mac == MacReq(boot, epoch, from, peer) then Ok(esk) else Err(Refused(BadMac))
    ensures forall boot :: Screened(local, from, peer).None? && mac == MacReq(boot, epoch, from, peer) ==>
              var (g, answer) := RequestEphemeralKey(old(peers.View(from)), boot, epoch, esk);
              peers.View(from) == g && reply == (match answer case Ok(k) => Ok(k) case Err(why) => Err(Refused(why)))
  {
    if from == [] || peer == [] { return Err(FieldsRequired); }
    if peer != local { return Err(PeerMismatch); }
    if from !in peers.bootstraps { return Err(Refused(NoBootstrap)); }
    if mac != MacReq(peers.bootstraps[from], epoch, from, peer) { return Err(Refused(BadMac)); }
    peers.StoreEphemeralSk(from, epoch, esk);
    return Ok(esk);
  }

  /** A confirmation that verifies uses up the ephemeral key, even if it then does not
      decapsulate. */
  method EstablishEphemeralHandler(peers: PeerRegistry, local: Text, keep: nat, from: Text, peer: Text, epoch: nat,
                                   ct: Option<KemCiphertext>, mac: Mac)
    returns (reply: Result<(), Denial>)
    modifies peers
    ensures forall q :: q != from ==> peers.View(q) == old(peers.View(q))
    ensures reply.Err? && reply.error != BadDecap ==> peers.View(from) == old(peers.View(from))
    ensures reply == Err(BadDecap) ==>
              && ct.None? && epoch in old(peers.View(from)).esks
              && peers.View(from) == old(peers.View(from)).(esks := old(peers.View(from)).esks - {epoch})
    ensures reply.Ok? || reply == Err(BadDecap) ==>
              old(peers.View(from)).boot.Some? && mac == MacFin(old(peers.View(from)).boot.value, epoch, from, local, ct)
    ensures Screened(local, from, peer).Some? ==> reply == Err(Screened(local, from, peer).value)
    ensures Screened(local, from, peer).None? ==>
              reply == match old(peers.View(from)).boot
                       case None => Err(Refused(NoBootstrap))
                       case Some(boot) =>
                         if mac != MacFin(boot, epoch, from, peer, ct) then Err(Refused(BadMac))
                         else if epoch !in old(peers.View(from)).esks then Err(Refused(NoKey))
                         else if ct.None? then Err(BadDecap) else Ok(())
    ensures forall boot :: Screened(local, from, peer).None? && ct.Some? && mac == MacFin(boot, epoch, from, peer, ct) ==>
              var (g, answer) := EstablishEphemeral(old(peers.View(from)), boot, epoch, ct.value, keep);
              peers.View(from) == g && (reply.Ok? <==> answer.Ok?) && (answer.Err? ==> reply == Err(Refused(answer.error)))
  {
    if from == [] || peer == [] { return Err(FieldsRequired); }
    if peer != local { return Err(PeerMismatch); }
    if from !in peers.bootstraps { return Err(Refused(NoBootstrap)); }
    if mac != MacFin(peers.bootstraps[from], epoch, from, peer, ct) { return Err(Refused(BadMac)); }
    var esk := peers.TakeEphemeralSk(from, epoch);
    if esk.None? {
      assert peers.View(from) == old(peers.View(from));
      return Err(Refused(NoKey));
    }
    if ct.None? { return Err(BadDecap); }
    peers.SetMasterForEpoch(from, epoch, Decap(esk.value, ct.value));
    peers.DropOldEpochsFor(from, keep);
    return Ok(());
  }
}
