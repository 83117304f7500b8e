/**
 What one DKMS keeps about one peer for the end-to-end layer, and what each operation on it
 does (dkms/src/e2e.rs, `PeerState` and the methods of `E2e`). Times are milliseconds.
 */
module E2eSpec {
  import opened Wrappers
  import opened Bytes
  import opened Numerals
  import opened Symbolic
  import opened Headers
  import opened ReplaySpec
  import opened Widths

  const AGREEMENT_MIN_INTERVAL: nat := 2_000
  const PENDING_ESK_TTL: nat := 30_000
  const GUARDRAIL_WINDOW: nat := 8192

  datatype E2eError =
    | NoEpoch | UnknownEpoch | BadHeader | BadTag | KeyIdReuse
    | Replay(cause: ReplayError) | BadPeer

  datatype Cfg = Cfg(suite: Text, keep: nat, respondBurst: nat, replayWindow: nat)

  /** An ephemeral public key as received: `None` if it does not decode to the suite's length. */
  datatype KemRequest = KemRequest(suite: Text, epk: Option<nat>)

  datatype KemResponse = KemResponse(suite: Text, epoch: nat, ct: Option<KemCiphertext>)

  type E2eTag = Tag<Text, seq<byte>>
  type E2eCipher = Cipher<Text>

  type Epochs = seq<(nat, Secret)>

  datatype PeerView = PeerView(
    epochs: Epochs,                    // newest last
    sendEpoch: Option<nat>,
    counter: nat,
    epochSends: nat,
    recent: seq<Text>,                 // key ids guarded against reuse, newest last
    replay: Window,
    pending: Option<(nat, nat)>,       // ephemeral key pair and when it was made
    inflight: bool,
    lastAttempt: Option<nat>,
    lastResponse: Option<nat>,
    respondBurst: nat)

  /** `PeerState::new`, with the burst the first response will reload anyway. */
  function NewPeer(cfg: Cfg): PeerView {
    PeerView([], None, 0, 0, [], Fresh(if cfg.replayWindow < 64 then 64 else cfg.replayWindow),
             None, false, None, None, 4)
  }

  function Max(a: nat, b: nat): nat { if a < b then b else a }

  function Elapsed(now: nat, since: nat): nat { if since <= now then now - since else 0 }

  // ---- epochs ----

  function SecretFor(epochs: Epochs, e: nat): Option<Secret> {
    if epochs == [] then None
    else if epochs[0].0 == e then Some(epochs[0].1)
    else SecretFor(epochs[1..], e)
  }

  predicate Holds(epochs: Epochs, e: nat) { SecretFor(epochs, e).Some? }

  /** The entries of the other epochs. */
  function Retain(epochs: Epochs, e: nat): Epochs {
    if epochs == [] then [] else (if epochs[0].0 == e then [] else [epochs[0]]) + Retain(epochs[1..], e)
  }

  function Newest<T>(q: seq<T>, n: nat): seq<T> {
    if |q| > n then q[|q| - n..] else q
  }

  /** `store`: the epoch becomes the newest of at most `keep` (at least one) and the one to
      send with; the volume counter and the reuse guard start over. */
  function Stored(v: PeerView, e: nat, s: Secret, keep: nat): PeerView {
    v.(epochs := Newest(Retain(v.epochs, e) + [(e, s)], Max(keep, 1)),
       sendEpoch := Some(e), epochSends := 0, recent := [])
  }

  // ---- sealing ----

  function DeriveKey(secret: Secret, keyId: Text): Okm {
    Okm(AAD_DOMAIN, secret, keyId + AAD_DOMAIN)
  }

  function PushRecent(recent: seq<Text>, id: Text): seq<Text> {
    (if |recent| >= GUARDRAIL_WINDOW then recent[1..] else recent) + [id]
  }

  function SealedHeader(header: Entries, epoch: nat, counter: nat): Entries {
    Remove(Insert(Insert(header, HDR_E2E_EPOCH, ToDecimal(epoch)), HDR_E2E_CTR, ToDecimal(counter)), HDR_E2E_TAG)
  }

  datatype SealedKey = SealedKey(header: Entries, tag: E2eTag, ct: E2eCipher)

  function SealWith(secret: Secret, from: Text, to: Text, keyId: Text, header: Entries, plain: Text): SealedKey {
    var okm := DeriveKey(secret, keyId);
    var (ct, tag) := SealDetached(okm, Derived(okm), plain, Aad(from, to, header));
    SealedKey(header, tag, ct)
  }

  function Seal(v: PeerView, me: Text, peer: Text, keyId: Text, header: Entries, plain: Text)
    : (PeerView, Result<SealedKey, E2eError>)
  {
    if v.sendEpoch.None? then (v, Err(NoEpoch)) else
    var secret := SecretFor(v.epochs, v.sendEpoch.value);
    if secret.None? then (v, Err(NoEpoch)) else
    if keyId in v.recent then (v, Err(KeyIdReuse)) else
    var v' := v.(counter := v.counter + 1, epochSends := v.epochSends + 1, recent := PushRecent(v.recent, keyId));
    (v', Ok(SealWith(secret.value, me, peer, keyId, SealedHeader(header, v.sendEpoch.value, v'.counter), plain)))
  }

  // ---- opening ----

  function NumberField(header: Entries, name: Text, radix: nat, bound: nat): Option<nat> {
    match Lookup(header, name)
    case Some(t) => ParseUnsigned(t, radix, bound)
    case None => None
  }

  function Open(v: PeerView, me: Text, source: Text, header: Entries, tag: Option<E2eTag>, keyId: Text, ct: E2eCipher)
    : (PeerView, Result<Text, E2eError>)
  {
    var epoch := NumberField(header, HDR_E2E_EPOCH, 10, U32);
    var counter := NumberField(header, HDR_E2E_CTR, 10, U64);
    var session := NumberField(header, HDR_INCARNATION, 16, U64);
    if epoch.None? || counter.None? || tag.None? || session.None? then (v, Err(BadHeader)) else
    var secret := SecretFor(v.epochs, epoch.value);
    if secret.None? then (v, Err(UnknownEpoch)) else
    var okm := DeriveKey(secret.value, keyId);
    match OpenDetached(okm, Derived(okm), ct, tag.value, Aad(source, me, Collect(header)))
    case None => (v, Err(BadTag))
    case Some(plain) =>
      var (replay, err) := CheckAndSet(v.replay, session.value, counter.value);
      if err.Some? then (v.(replay := replay), Err(Replay(err.value))) else (v.(replay := replay), Ok(plain))
  }

  // ---- agreements ----

  /** `request_agreement` up to the spawn: one exchange in flight, not too often. */
  predicate MayStart(v: PeerView, now: nat) {
    !v.inflight && (v.lastAttempt.Some? ==> Elapsed(now, v.lastAttempt.value) >= AGREEMENT_MIN_INTERVAL)
  }

  function Started(v: PeerView, now: nat): PeerView {
    v.(inflight := true, lastAttempt := Some(now))
  }

  /** `begin_request`: remember the secret half of a new ephemeral pair. */
  function Begun(v: PeerView, key: nat, now: nat): PeerView {
    v.(pending := Some((key, now)))
  }

  /** The end of the spawned task. */
  function Ended(v: PeerView, failed: bool): PeerView {
    v.(inflight := false, pending := if failed then None else v.pending)
  }

  function Complete(v: PeerView, cfg: Cfg, resp: KemResponse, now: nat): (PeerView, Result<nat, E2eError>) {
    if resp.epoch == 0 || resp.suite != cfg.suite || resp.ct.None? || v.pending.None? then (v, Err(BadPeer)) else
    var (key, since) := v.pending.value;
    var taken := v.(pending := None);
    if Elapsed(now, since) > PENDING_ESK_TTL then (taken, Err(BadPeer)) else
    (Stored(taken, resp.epoch, Decap(key, resp.ct.value), cfg.keep), Ok(resp.epoch))
  }

  /** The responder's rate limit: `None` refuses. */
  function Admitted(v: PeerView, cfg: Cfg, now: nat): Option<PeerView> {
    if v.lastResponse.Some? && Elapsed(now, v.lastResponse.value) < AGREEMENT_MIN_INTERVAL then
      if v.respondBurst == 0 then None else Some(v.(respondBurst := v.respondBurst - 1))
    else Some(v.(respondBurst := Max(cfg.respondBurst, 1) - 1, lastResponse := Some(now)))
  }

  function Respond(v: PeerView, cfg: Cfg, req: KemRequest, coin: nat, epoch: nat, now: nat)
    : (PeerView, Result<KemResponse, E2eError>)
  {
    match Admitted(v, cfg, now)
    case None => (v, Err(BadPeer))
    case Some(v1) =>
      if req.suite != cfg.suite || req.epk.None? then (v1, Err(BadPeer)) else
      var (ct, secret) := Encap(req.epk.value, coin);
      (Stored(v1, epoch, secret, cfg.keep), Ok(KemResponse(req.suite, epoch, Some(ct))))
  }
}
