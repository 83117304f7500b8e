# A verified model of the QKD key-management stack

This project models the parts of the stack that keep keys in step between machines, and
proves what they guarantee over every run. It is written in Dafny 4.11; `dafny verify
dfyconfig.toml` checks all of it.

- **End-to-end layer between two DKMSs** (`E2e*.dfy`, `Headers.dfy`, `Replay*.dfy`): a
  two-party key agreement with lost replies, crossing requests, restarts, a bounded epoch
  history, a reuse guard and an anti-replay window. `E2e.dfy` and `ReplayWindow.dfy` hold the
  state as the program updates it; `E2eSpec.dfy` and `ReplaySpec.dfy` say what each operation
  does; `E2eProtocol.dfy` is the pair as a transition system. The network drops, delays,
  repeats and splices frames; it cannot compute a tag.
- **ORR bootstrap and rotation** (`Orr*.dfy`): any number of tasks of one initiator share one
  exclusion flag and a registry with a responder that always overwrites. Code between two
  awaits is one step; a remote call takes effect before it returns, or never; replies may be
  lost; either end may restart.
- **Session-key service** (`Otp.dfy`, `EncKeys*.dfy`, `ExtKeys*.dfy`): one-time pads from
  per-peer, per-grade queues, all-or-nothing rollback, refunds, requests in any interleaving,
  and the receiving side.
- **Onion** (`Onion*.dfy`): construction, peeling, freshness and relaying along a path of any
  length.
- **Drain** (`Drain.dfy`): guards, droppers and waiters, one atomic operation per step.
- **Text, registry and counters**: the TOML line editor (`MergeExtra*.dfy`), the hot-updated
  peer registry (`DkmsPeers*.dfy`), the lazy average (`Ewma.dfy`), the token bucket
  (`TokenBucket.dfy`).
- **Encodings**: the binary key lists (`Binary*.dfy`) and the authenticator inputs
  (`Macs.dfy`).

Cryptography is symbolic (`Symbolic.dfy`). Decapsulation inverts encapsulation and, with
another key pair, yields an unrelated secret rather than an error (section 7 of FIPS 203).
Authenticated encryption opens only what was sealed under the same key, nonce and additional
data (section 7 of NIST SP 800-38D). HKDF (section 2 of RFC 5869), HMAC (section 2 of RFC
2104) and digests are injective. Key pairs, encapsulation coins, process incarnations and the
epoch numbers drawn by responders do not repeat during a run. Clocks, random draws and the
outcome of sends are parameters.

Where the code and its documentation differ, the model follows the code and the difference is
stated exactly:

- The comment at orr/src/peers.rs:569-574 says an epoch the other end may lack is never sent
  with. `InitiatorSendEpoch` says when that holds; `FirstRotationSendsProvisional` is the case
  it misses, and `ResponderSendEpoch` with `LostConfirmationOrphans` the one on the other side.
- The anti-replay window is meant never to mute the live session and never to accept a frame
  twice. `AcceptedExactly` says after how many late sessions each fails. `MuteExactly` and
  `OnceExactly` say for which histories each holds of the protocol: the first needs a history
  of one epoch, with which, as `CrossingFailsWithOneEpoch` shows, crossing agreements fail.
- An onion may be given any list of hops. `OnionDelivers` says which are delivered;
  `RevisitRefused` is a list that is not, though no hop is next to itself.
- An onion layer is meant to be taken once. A hop finds the secret under the origin's name in
  lower case (orr/src/service.rs:788) and the window under the name as spelled
  (orr/src/service.rs:829-831). `CapturedLayerRefused` holds in the origin's own spelling;
  `RespelledRefused` and `DeliveredAgain` say exactly what holds in another, and
  `TwoSpellings` is an instance.
- Draining is meant to end with no request in flight. `DrainedExactly` names the requests for
  which it does not.
- `merge_extra` is meant to keep every line in its table. `ScalarMeaning` and `TableMeaning`
  say for which keys it does, and `FileMeaning` for which the written file says the same. Its
  check compares the text of keys, where TOML 1.0.0 (section "Keys") ignores blanks and
  quotes, and the templates quote some keys (docker/render_config.py:395-406, 506, 512).
  `KeysDistinct` says for which maps nothing is defined twice, `BareKeysDistinct` and
  `BareSections` what a caller with bare keys must look at in the rendered lines and the map;
  `EqualsKeyRepeats` to `DottedHeadRepeats` are families that slip through.
- `pack_keys` and `write_lp16` narrow lengths silently; `KeysRoundTrip` and
  `OverlongFieldsCollide` say what follows.

## Model

| member | source | states |
|---|---|---|
| `Headers.CollectSorts` | dkms/src/e2e.rs:462-466 | Collecting the entries of an unordered map in any order sorts them by key and keeps what each key maps to. |
| `Headers.AscendingUnique` | dkms/src/e2e.rs:462-466 | A map has exactly one list of entries in key order, so the receiver cannot rebuild a different one. |
| `Headers.AadInjective` | dkms/src/e2e.rs:353-370 | Equal authenticated data means equal origin, destination and header entries, the tag apart. |
| `Headers.AadCanonical` | dkms/src/e2e.rs:353-370 | What the sender authenticates equals what the receiver rebuilds from an unordered map if and only if the ends and the entries, the tag apart, are the same. |
| `Headers.AadLayout` | dkms/src/e2e.rs:353-370 | Where each field of the authenticated data stands: the domain, sender, receiver, then the entries but the tag, key before value, each after its 32-bit length. |
| `Bytes.BigEndianAt` | dkms/src/e2e.rs:353-370 | Byte i from the right of a fixed-width number stands for a multiple of 256^i. |
| `Numerals.ParseWritten` | dkms/src/e2e.rs:404-441 | Every number in range survives being written in decimal and parsed. |
| `Numerals.ParseWrittenHex` | dkms/src/southbound/orr.rs:105-108 | Every 64-bit incarnation survives being written as 16 hexadecimal digits and parsed. |
| `ReplaySpec.CheckRemembers` | common/src/crypto/frame_mac.rs:388-443 | A check adopts a session it does not remember, forgets the oldest beyond ten, and otherwise remembers exactly what it did. |
| `ReplaySpec.AcceptedThenRefused` | common/src/crypto/frame_mac.rs:388-443 | A session and counter accepted once are refused at once afterwards. |
| `ReplaySpec.RefusedStaysRefused` | common/src/crypto/frame_mac.rs:332-443 | No check of any session makes a refused pair acceptable while its session is remembered. |
| `ReplaySpec.AcceptedExactly` | common/src/crypto/frame_mac.rs:261-443 | Over any run of other sessions' frames, exactly when the current session's counters are accepted: as before with at most one adoption, never from the second on, always again from the tenth on. The window is meant to keep accepting the live session and to refuse every replay; this is where each of the two stops holding. |
| `ReplayHistory.ReasonExactly` | common/src/crypto/frame_mac.rs:332-443 | Which of the four reasons a window gives for a refusal, read off the checks made since it was new: no counter, session retired, outrun by a width, repeated. |
| `BitWords.ShiftBits` | common/src/crypto/frame_mac.rs:445-462 | The two-pass word shift moves every flag up by the amount and drops those that leave the window. |
| `BitWords.SetFlag` | common/src/crypto/frame_mac.rs:372-375 | Sets one flag and changes no other. |
| `ReplayWindows.ReplayWindow.constructor` | common/src/crypto/frame_mac.rs:264-278 | A new window of at least 64 counters has seen nothing. |
| `ReplayWindows.ReplayWindow.ResetTo` | common/src/crypto/frame_mac.rs:311-328 | Adopting a session retires the one before the previous, saves the current one and clears the bits. |
| `ReplayWindows.ReplayWindow.MarkBits` | common/src/crypto/frame_mac.rs:377-443 | The bit-level acceptance of a counter is the set-level one: same verdict, same counters seen. |
| `ReplayWindows.ReplayWindow.CheckAndSet` | common/src/crypto/frame_mac.rs:388-443 | The bitmap window refines the window of seen sets, in state and in every error. |
| `E2e.RecentKeyIds.Insert` | dkms/src/e2e.rs:139-151 | The hash set never drifts from the queue; exactly the ids among the last 8192 accepted are refused. |
| `E2e.RecentKeyIds.Clear` | dkms/src/e2e.rs:153-156 | Forgets all ids. |
| `E2e.PeerState.Store` | dkms/src/e2e.rs:258-279 | The stored epoch becomes the newest of at most max(keep, 1), the one to send with, and starts a new tenure. |
| `E2e.PeerState.FreshEpoch` | dkms/src/e2e.rs:281-288 | The epoch drawn is the first draw that is neither 0 nor held. |
| `E2e.PeerState.Seal` | dkms/src/e2e.rs:378-419 | Sealing in place is the function of the specification: errors in order, counter, reuse guard, header and tag. |
| `E2e.PeerState.Open` | dkms/src/e2e.rs:423-488 | Opening in place is the function of the specification; no state changes before the tag verifies. |
| `E2e.PeerState.BeginRequest` | dkms/src/e2e.rs:494-507 | A request replaces the pending ephemeral key. |
| `E2e.PeerState.CompleteRequest` | dkms/src/e2e.rs:510-553 | A response is matched with the pending key, which is consumed, and its epoch stored. |
| `E2e.PeerState.Respond` | dkms/src/e2e.rs:557-615 | A responder within its rate limit encapsulates, draws a fresh epoch and stores it. |
| `E2e.PeerState.StartAgreement` | dkms/src/e2e.rs:633-646 | At most one exchange in flight, not more often than the minimum interval. |
| `E2e.PeerState.EndAgreement` | dkms/src/e2e.rs:659-666 | The exchange ends; a failed one drops the pending key. |
| `E2eSeals.CountersAreDense` | dkms/src/e2e.rs:396-404 | Over every run of seals and rotations the counters are exactly 1, 2, 3, ... |
| `E2eSeals.KeyIdsAreSpread` | dkms/src/e2e.rs:131-157 | Two seals of one key id within one tenure of a send epoch have at least 8192 accepted seals between them. |
| `E2eSeals.ReuseRefusedExactly` | dkms/src/e2e.rs:385-400 | A seal is refused for reuse if and only if its key id is among the last 8192 accepted since the last rotation. |
| `E2eInvariant.StoredHistory` | dkms/src/e2e.rs:258-279 | Storing a fresh epoch in a history cut to the newest gives the longer history cut to the newest. |
| `E2eTheorems.NewestHeld` | dkms/src/e2e.rs:258-279 | Over every run the epochs held are exactly the newest of all this process ever stored, as many as it keeps and at least one. |
| `E2eFrames.Authentic` | dkms/src/e2e.rs:423-489 | A tag that verifies was made by the other end, for just this key id, text, epoch, counter and process. |
| `E2eFrames.RunKeepsInv` | dkms/src/e2e.rs:204-676 | What every run of two ends keeps: histories, exchanges in flight, assigned secrets, sealed frames, replay windows and openings. |
| `E2eTheorems.SharedEpochsAgree` | dkms/src/e2e.rs:494-615 | Over every run with losses, crossings and restarts, an epoch held by both ends has the same secret at both. |
| `E2eTheorems.SendEpochHeld` | dkms/src/e2e.rs:378-394 | Over every run the send epoch is in the end's own history, so the second lookup in a seal cannot fail. |
| `E2eTheorems.OpenedWasSealed` | dkms/src/e2e.rs:423-489 | Over every run whatever an end opened was sealed by the other end, same tag, text and counter, under an epoch assigned to the sealing and the opening process. |
| `E2eTheorems.SealedOpens` | dkms/src/e2e.rs:378-489 | What one end seals under an epoch the other holds opens there to the same text, header entries in any order, if and only if the receiver's window has not retired the sending process. |
| `E2eTheorems.SealedOpensExactly` | dkms/src/e2e.rs:378-489 | Without that proviso: what one end seals is opened at the other, to the same text, if and only if the epoch is held there and the sending process not retired. |
| `E2eOutcomes.SealExactly` | dkms/src/e2e.rs:378-419 | On any state, sealing fails for want of an epoch exactly if there is none to send with, then for a key id used lately; otherwise it takes the next counter, and a failure changes nothing. |
| `E2eOutcomes.NoEpochExactly` | dkms/src/control/generator.rs:911-921 | Over every run an end cannot seal for want of an epoch if and only if its process has not stored one yet. |
| `E2eOutcomes.SealedIs` | dkms/src/e2e.rs:378-419 | What is sealed is the text under the key of the send epoch's secret and the key id; the header gains this epoch and the next counter, loses the tag and is otherwise as it was. |
| `E2eOutcomes.KeysApart` | dkms/src/e2e.rs:337-347 | Two frames share a key and a nonce if and only if they share the secret and the key id. |
| `E2eOutcomes.UnknownEpochExactly` | dkms/src/service.rs:1244-1250 | On any state, a frame whose fields parse is of an unknown epoch if and only if its epoch is not held; one that does not is a bad header; neither changes anything. |
| `E2eOutcomes.OpensExactly` | dkms/src/e2e.rs:423-487 | A frame of a held epoch has a bad tag if and only if it is not what the tag was computed for; otherwise the window decides, and only then remembers. |
| `E2eOutcomes.StoredExactly` | dkms/src/e2e.rs:258-279 | On any state, the stored epoch is the newest and the one to send with, at most `keep` and at least one are held, none twice, the others being held before. |
| `E2eOutcomes.CompletesExactly` | dkms/src/e2e.rs:511-556 | An answer is taken up if and only if it names an epoch, the local suite and a ciphertext and its key pair is at most 30 seconds old; any well-formed answer uses the pair up. |
| `E2eOutcomes.StartsApart` | dkms/src/e2e.rs:628-660 | Over every run of attempts any two agreements start at least 2 seconds apart, none while one is in flight. |
| `E2eOutcomes.StartsWhenDue` | dkms/src/e2e.rs:628-660 | An attempt goes through if none is in flight and the last one is 2 seconds ago; a task that failed drops its key pair. |
| `E2eOutcomes.BurstExactly` | dkms/src/e2e.rs:565-583 | Within 2 seconds of a response as many more are given as are left of the burst, and no more. |
| `E2eOutcomes.BurstBegins` | dkms/src/e2e.rs:565-583 | The first response, or the first after 2 seconds, is given, and within 2 seconds of it at most `respond_burst` in all, and at least one. |
| `E2eOutcomes.NewPeerIs` | dkms/src/e2e.rs:234-249 | A peer not known yet has no epoch, and a window of at least 64 counters that accepts anything. |
| `E2eCrossing.AgreementConverges` | dkms/src/e2e.rs:494-676 | From any reachable state one agreement without loss leaves both ends sending under the same epoch and secret. |
| `E2eCrossing.AgreementDelivers` | dkms/src/e2e.rs:378-676 | After it, what either end seals opens at the other to the same text, if and only if the sending process is not retired in the window there. |
| `E2eCrossing.CrossingAgreements` | dkms/src/e2e.rs:258-279 | Two crossing agreements without loss, in any of their interleavings: an end can open what the other seals next if and only if it keeps at least two epochs or both stored the same agreement last. |
| `E2eCrossing.CrossingDelivers` | dkms/src/e2e.rs:258-489 | After two crossing agreements in any interleaving, what the other end seals is opened to the same text if and only if the receiver keeps at least two epochs or both stored the same agreement last, and its window has not retired the sending process. |
| `E2eCrossing.CrossingFailsWithOneEpoch` | dkms/src/e2e.rs:258-279 | With a history of one epoch there is an interleaving after which an end cannot open what the other seals. |
| `E2eOnce.OpenedOnce` | dkms/src/e2e.rs:423-489 | No frame is opened twice in any run, restarts included, while neither end keeps more than five epochs (the default is four). |
| `E2eTwice.OpenedTwice` | common/src/crypto/frame_mac.rs:261-443 | With six or more epochs kept at an end there is a run in which it opens the same frame twice: ten processes adopted after the frame make the window forget its session while its epoch is still held. |
| `E2eTwice.OnceExactly` | dkms/src/e2e.rs:423-489 | No run opens a frame twice if and only if the ends have different suites (and never agree) or both keep at most five epochs. |
| `E2eMuted.NeverMute` | common/src/crypto/frame_mac.rs:261-443 | An end that keeps one epoch never comes to refuse the live process of the other end, in any run. |
| `E2eMuting.UnheardAfterAgreement` | dkms/src/e2e.rs:423-676 | With two or more epochs kept there is a run, and one more agreement after it without loss, after which the other end's live process seals a frame that verifies and is refused: late frames of two earlier processes have retired it. |
| `E2eMuting.MuteExactly` | common/src/crypto/frame_mac.rs:261-443 | No run makes either end refuse the live process of the other if and only if the ends have different suites (and never agree) or both keep a single epoch. |
| `OrrRegistry.KeepLargestExact` | orr/src/peers.rs:610-626 | Pruning drops no more than needed and only keys smaller than all that stay. |
| `OrrRegistry.PrunedNewest` | orr/src/peers.rs:606-626 | Because it never keeps fewer than two, pruning keeps the two newest epochs, with their secrets. |
| `OrrRegistry.PrunedExactly` | orr/src/peers.rs:610-626 | Of epochs and of ephemeral keys exactly the latest max(keep, 2) stay. |
| `OrrRegistry.WithEskExactly` | orr/src/peers.rs:528-539 | A new ephemeral key joins those held, of which the 64 of the latest epochs stay. |
| `OrrRegistry.PeerRegistry.constructor` | orr/src/peers.rs:154-157 | A new registry knows nothing about any peer. |
| `OrrRegistry.PeerRegistry.PutPubkey` | orr/src/peers.rs:368-370 | Replaces one peer's public key and nothing else. |
| `OrrRegistry.PeerRegistry.SetMasterForEpoch` | orr/src/peers.rs:435-441 | Adds one epoch of one peer. |
| `OrrRegistry.PeerRegistry.ResetForBootstrap` | orr/src/peers.rs:596-604 | One peer's whole history is replaced by the new secret as epoch 0; no other peer changes. |
| `OrrRegistry.PeerRegistry.ClearPeerSecrets` | orr/src/peers.rs:663-668 | One peer's secrets, epochs, keys and send epoch are gone; no other peer changes. |
| `OrrRegistry.PeerRegistry.RemoveMasterEpoch` | orr/src/peers.rs:582-586 | Exactly one epoch is withdrawn; the send epoch stays. |
| `OrrRegistry.PeerRegistry.SetCurrentSendEpoch` | orr/src/peers.rs:565-567 | Sets one peer's confirmed epoch. |
| `OrrRegistry.PeerRegistry.DropOldEpochsFor` | orr/src/peers.rs:610-626 | The popping loops keep the largest max(n, 2) epochs and ephemeral keys of one peer. |
| `OrrRegistry.PeerRegistry.StoreEphemeralSk` | orr/src/peers.rs:528-539 | The key is stored and the oldest beyond 64 dropped. |
| `OrrRegistry.PeerRegistry.TakeEphemeralSk` | orr/src/peers.rs:546-550 | An ephemeral key is handed out once. |
| `OrrRegistry.PeerRegistry.TryMarkRebootstrapInflight` | orr/src/peers.rs:677-684 | Succeeds exactly when the flag was free. |
| `OrrRegistry.PeerRegistry.ClearRebootstrapInflight` | orr/src/peers.rs:689-691 | Frees the flag. |
| `OrrRegistry.PeerRegistry.SendEpochFor` | orr/src/peers.rs:575-578 | The confirmed epoch, or else the latest one. |
| `OrrHandlers.EstablishSecretHandler` | orr/src/grpc_server.rs:253-324 | A known peer's ciphertext that decapsulates always replaces the whole history with its secret; anything else changes nothing, and the answer says which check failed first. |
| `OrrHandlers.RequestEphemeralKeyHandler` | orr/src/rotation.rs:384-478 | A key is handed out only under the peer's bootstrap secret; every refusal leaves the registry alone, and the answer is determined by the registry and the authenticator. |
| `OrrHandlers.EstablishEphemeralHandler` | orr/src/rotation.rs:481-586 | A confirmed epoch is installed with the key it was asked for, which is consumed; a confirmation that verifies and does not decapsulate consumes the key and changes nothing else; every other refusal leaves the registry alone. |
| `OrrProtocol.OneInitiator` | orr/src/bootstrap.rs:146-152 | Of two ORRs exactly one initiates, the one with the smaller id. |
| `Headers.LessWhere` | orr/src/bootstrap.rs:146-152 | Smaller means: a proper beginning, or the smaller byte where the two part; `BeforeLess` is the converse. |
| `OrrInvariant.RunKeepsInv` | orr/src/bootstrap.rs:109-286 | What every run of bootstrap, re-bootstrap and rotation tasks keeps at both ends. |
| `OrrTheorems.OneEstablishment` | orr/src/bootstrap.rs:166-224 | Over every run at most one establishment is in flight, and the flag is set exactly while one is. |
| `OrrTheorems.BootstrapAgrees` | orr/src/bootstrap.rs:196-224 | With none in flight, the last one successful and its secret not cleared since, both ends hold the same bootstrap secret if and only if the responder still has the key pair that was used. |
| `OrrTheorems.EstablishmentResets` | orr/src/bootstrap.rs:196-210 | A successful establishment leaves only epoch 0 at the initiator, and the same at the responder if and only if it did not restart since its key was fetched. |
| `OrrTheorems.InitiatorSendEpoch` | orr/src/peers.rs:569-578 | The initiator sends with an epoch the responder has with the same secret, if and only if it has a confirmed one, or none is awaiting confirmation, or that confirmation has landed. The documentation promises it always. |
| `OrrTheorems.ResponderSendEpoch` | orr/src/rotation.rs:169-213 | The responder sends with an epoch the initiator has with the same secret, if and only if that epoch is confirmed or its confirmation is on the way back. |
| `OrrTheorems.FirstRotationSendsProvisional` | orr/src/rotation.rs:169-189 | In the first rotation after every bootstrap the fallback to the latest epoch sends with one the responder does not have. |
| `OrrTheorems.ProvisionalReached` | orr/src/rotation.rs:169-189 | A run from the initial state that gets there. |
| `OrrTheorems.LostConfirmationOrphans` | orr/src/rotation.rs:190-202 | A confirmation whose reply is lost leaves the responder sending with an epoch the initiator has withdrawn. |
| `OrrTheorems.OrphanReached` | orr/src/rotation.rs:190-202 | A run from the initial state that gets there. |
| `OrrTheorems.RotationCommits` | orr/src/rotation.rs:101-213 | From any state where the ends agree a rotation without loss commits the next epoch, with which both then send. |
| `OrrTheorems.RotationRebootstraps` | orr/src/rotation.rs:305-350 | From any state where they do not, the rotation bootstraps again and they do. |
| `OrrTheorems.EphemeralOnce` | orr/src/rotation.rs:528-565 | A confirmation uses up the ephemeral key, and the next one for the epoch finds none. |
| `OrrTheorems.PassiveForgets` | orr/src/service.rs:1028-1075 | Over every run, from its start to its end a passive re-bootstrap leaves the initiator without any secret of the peer. |
| `Otp.PaddedTwice` | dkms/src/service.rs:1431-1459 | Unwrapping with the pad a key was wrapped with gives the key. |
| `Otp.PaddedDetermines` | dkms/src/service.rs:1446-1459 | Two pads unwrap to the same text if and only if they agree over its length. |
| `Otp.PaddedBit` | dkms/src/service.rs:1431-1444 | Bit by bit, the padded text is set where text and pad differ. |
| `Otp.Wrap` | dkms/src/service.rs:1431-1444 | The loop pads byte by byte and refuses exactly the texts longer than the pad. |
| `EncKeysSpec.PopPrefPops` | dkms/src/state/pool.rs:62-69 | The pad comes from the front of the first non-empty grade in preference order, and pushing it back undoes the pop. |
| `EncKeysSpec.BuildExact` | dkms/src/service.rs:985-1053 | An envelope's pads can be put back exactly; a failure has put them back, less at most the one pad that was too short. |
| `EncKeysPool.SubmitExact` | dkms/src/service.rs:529-620 | Over all envelopes of a request every queue is what it sent, in order, followed by what is left; a failure leaves every queue as it was, less at most one short pad. |
| `EncKeysRuns.RefundIsCharge` | dkms/src/token_bucket.rs:28-40 | Within the request limits nothing saturates and the refund equals the charge. |
| `EncKeysRuns.FailureRestores` | dkms/src/service.rs:601-620 | A request that fails before anything is sent leaves no envelope, the same tokens, none of its ids pending and every queue as it was, less at most one short pad; the wrapping error that would lose pads cannot occur. |
| `EncKeysRuns.PartialCharge` | dkms/src/service.rs:625-663 | When sends fail only the peers that failed are refunded. |
| `EncKeysServed.BuildLined` | dkms/src/service.rs:985-1053 | With a peer's pads lined up grade after grade in preference order: an envelope is built if and only if the line has a long enough pad for every session key, and takes the first of the line in order; otherwise the reason is that of the first key that cannot be served. |
| `EncKeysServed.CostIsPrice` | dkms/src/token_bucket.rs:28-40 | Within the limits the cost is ceil(ceil(size / 8) / unit) times keys times peers, unit and peers counting at least 1. |
| `EncKeysServed.ServedExactly` | dkms/src/service.rs:365-677 | A request is served if and only if the limits hold, there are tokens for its price, every peer has enough pads in line, every peer is reachable and no send fails; otherwise the answer names the first of these that is missing. |
| `EncKeysServed.ServedGets` | dkms/src/service.rs:488-520 | A request that is served answers with its session keys, costs its price, and adds each key under its id for local SAEs if and only if there are any; nothing else is pending that was not. |
| `EncKeysServed.ServedSends` | dkms/src/service.rs:529-623 | Once sending starts, one envelope per peer has gone out, each session key under the next pad of the line; peers that are not named keep their queues. |
| `EncKeysServed.PartlyServed` | dkms/src/service.rs:625-663 | A request whose sends fail pays the price of one peer for each that was reached, and no key of it waits. |
| `EncKeysServed.RefusedUnchanged` | dkms/src/service.rs:436-505 | A request refused before it is charged changes nothing. |
| `EncKeysRuns.PadUsedOnce` | dkms/src/service.rs:529-623 | Over every run of refills, clears and requests served one after another, a pad wraps at most one session key that is ever sent. |
| `EncKeysRuns.SentNeverReturns` | dkms/src/service.rs:621-623 | Over every run a pad that was sent with is never in a queue again. |
| `EncKeysInterleaved.AllOrNothing` | dkms/src/service.rs:529-620 | However any number of requests interleave, one operation on one queue at a time, with each other, refills and clears: a request that sends holds one long enough pad of an acceptable grade for every peer and session key of its plan, one that fails holds none and has lost at most one, which was too short. |
| `EncKeysInterleaved.RunAccounted` | dkms/src/state/buffer.rs:99-153 | In every such interleaving the pads a queue ever got are those in requests' hands, sent or lost, those cleared and those queued, each as often as it came. |
| `EncKeysInterleaved.AllReturned` | dkms/src/service.rs:601-620 | Once every request is done, the pads a queue ever got are those of requests that sent, the short ones lost, those cleared and those queued: failed requests have returned all others. |
| `EncKeysInterleaved.Settled` | dkms/src/service.rs:598-623 | No later step changes a request that has sent or has failed. |
| `EncKeysInterleaved.SentOnce` | dkms/src/service.rs:529-623 | In every such interleaving no two places of any requests hold pads with one id, so a pad is sent at most once. |
| `EncKeysInterleaved.SentStaysSent` | dkms/src/service.rs:598-623 | In every such interleaving a pad that a request holds or has sent is in no queue. |
| `EncKeys.EncPopPref` | dkms/src/state/pool.rs:62-69 | The search over grades pops what the specification says. |
| `EncKeys.BuildFrom` | dkms/src/service.rs:985-1053 | The loop over session keys, with its two ways back, is the specification. |
| `EncKeys.KeyService.PrepareAll` | dkms/src/service.rs:540-563 | All envelopes, or none and all pads returned in order. |
| `EncKeys.KeyService.HandleEncKeys` | dkms/src/service.rs:365-677 | The handler in place is the specification: limits, charge, pending entries, envelopes, rollback, refund and answer. |
| `ExtKeysSpec.CheckedExactly` | dkms/src/service.rs:811-840 | A wrapped key passes its digest check if and only if both ends' pads agree over its length, and then unwraps to itself. |
| `ExtKeysSpec.StoredIsGenerated` | dkms/src/service.rs:792-867 | Over every run, whatever the pads at this end, a key stored for a peer under an id is the one generated under that id. |
| `ExtKeysAcked.KeyExactly` | dkms/src/service.rs:792-867 | How one key ends, by the pad it names: too short, digest wrong, origin full, id taken or acknowledged. |
| `ExtKeysAcked.KeyRefused` | dkms/src/service.rs:792-812 | It is refused for want of a pad id, or of the pad, if and only if it names none, or none of this peer's. |
| `ExtKeysAcked.AckedExactly` | dkms/src/service.rs:826-867 | For every store, peer and envelope: an id is acknowledged if and only if it was absent before and is there afterwards with this peer as its origin; acknowledged ids are in envelope order, none twice, each stored as a pad of this peer unwraps it; nothing else that was stored changes. |
| `ExtKeysAcked.FirstRefusal` | dkms/src/service.rs:792-867 | A refusal is that of the first key refused; what came before it stays, what comes after it is not looked at. |
| `ExtKeysEndToEnd.RunEmits` | dkms/src/service.rs:529-623 | Over every run of the sender, what is emitted is a session key generated for some request, under a pad that covers it. |
| `ExtKeysEndToEnd.StoredWasGenerated` | dkms/src/service.rs:792-867 | Over every run of the sender and every run of the receiver on envelopes with the sender's ids and digests, whatever else they and the receiver's pads hold, a stored key is one the sender generated and emitted, byte for byte. |
| `ExtKeysEndToEnd.EmittedIsStored` | dkms/src/service.rs:792-867 | Whatever any run of the sender emits is stored as generated, if it arrives as emitted and the receiver has the pad, the place and the id free. |
| `ExtKeysSpec.RunCounted` | dkms/src/state/pending.rs:98-190 | Over every run the per-origin counters are exact, so none exceeds 131072. |
| `ExtKeysSpec.PadsConserved` | dkms/src/service.rs:792-812 | For one envelope: pads before it are those left and those used, each once; other peers' pads are untouched. |
| `ExtKeysSpec.RunAccounted` | dkms/src/state/buffer.rs:11-19 | Over every run of deliveries, refills below a ceiling, clears and wipes, the pads of a peer that ever came in are those left, used and cleared, each as often as it came in. |
| `ExtKeysSpec.PadsOneShot` | dkms/src/state/buffer.rs:11-19 | Over every run in which a peer's pads come with fresh ids, no id occurs twice among those used, cleared and left: each pad is used at most once and leaving the buffer is final. |
| `ExtKeys.Receiver.TakeById` | dkms/src/state/buffer.rs:143-147 | Takes the first pad with that id and no other. |
| `ExtKeys.Receiver.InsertFromPeer` | dkms/src/state/pending.rs:126-158 | Never overwrites, and refuses an origin that is full. |
| `ExtKeys.Receiver.HandleIncoming` | dkms/src/service.rs:711-880 | The loop over an envelope is the specification: first refusal stops it, what came before stays, acknowledged are exactly the stored ids. |
| `OnionSpec.AadDetermines` | orr/src/onion.rs:234-264 | Equal authenticated data of two layers means equal key id, epoch, hop count, session, counter and DKMS header. |
| `OnionSpec.OpensExactly` | orr/src/onion.rs:309-352 | A sealed layer opens if and only if secret, header fields and ciphertext are the ones it was made with. |
| `OnionSpec.AadLayout` | orr/src/onion.rs:234-264 | Where each field of a layer's authenticated data stands. |
| `OnionSpec.KeyAndNonceApart` | orr/src/onion.rs:266-291 | Two layers share a key if and only if they share the secret and the key id, and a nonce if and only if the first 12 bytes of it. |
| `Onion.BuildOnion` | orr/src/onion.rs:364-441 | The inside-out loop builds the layers of the recursive definition; only an empty path fails. |
| `Onion.OnionDelivers` | orr/src/service.rs:768-905 | For every path, body and state of the hops' windows the onion is delivered if and only if every hop shares the secret its layer was sealed under, accepts the freshness pair, can relay to the next, and no hop occurs twice on the path; then the frames visit the path in order under each hop's epoch with n-1, ..., 0 hops left and deliver exactly the body. |
| `Onion.StopsExactly` | orr/src/service.rs:768-865 | Why an onion stops at a hop, the first reason in the order they are looked at: no secret, bad layer, refused as a replay, delivered, next to itself, no route; otherwise it goes on. |
| `Onion.RevisitRefused` | orr/src/service.rs:826-841 | On a path that returns to its first hop by way of another, every hop is visited and the last visit is refused as a replay. |
| `Onion.WindowsAfter` | orr/src/onion_replay.rs:63-74 | A delivered onion has been checked exactly once at every hop on its path and at no other. |
| `ReplayHistory.RefusedExactly` | orr/src/onion_replay.rs:63-74 | A window that remembers a session since its first check refuses a pair of it if and only if the session is retired, or the pair or one a width ahead was checked before. |
| `OnionCaptured.PresentedTaken` | orr/src/service.rs:768-841 | Whatever is presented to a hop with the tag of its layer is taken if and only if nothing but the spelling of the origin differs from the frame that was sent, that spelling leads to the secret the layer was sealed under, and the window kept under that spelling accepts the pair. |
| `OnionCaptured.PresentedDelivers` | orr/src/service.rs:768-905 | It is delivered if and only if, besides, the rest of the path would deliver the message in that spelling. |
| `OnionCaptured.CapturedLayerRefused` | orr/src/onion_replay.rs:63-74 | Once a hop has taken its layer, whatever became of the onion afterwards, the same frame is refused there in the origin's own spelling, whatever that hop checked in between, while it remembers the origin's session. |
| `OnionCaptured.RefusedAfterJourney` | orr/src/service.rs:768-905 | The same after any journey of the onion that was taken at that hop, delivered or stopped further on. |
| `OnionCaptured.RespelledRefused` | orr/src/service.rs:776-841 | In any spelling that leads to the same secret it is refused if and only if, in the window kept under that spelling, the session is retired or the pair or one a width ahead was checked before. |
| `OnionCaptured.DeliveredAgain` | orr/src/service.rs:776-841 | A delivered onion is delivered again, from any hop on, in another spelling that leads to the same secrets if and only if no later hop has spent the pair under that spelling. |
| `OnionCaptured.TwoSpellings` | orr/src/service.rs:776-841 | `orr_1` and `ORR_1`: at one hop that has seen nothing, one layer is delivered twice. |
| `Onion.LayerBound` | orr/src/onion.rs:453-481 | At every depth a layer peels only for its own hop and the fields it was built with; only the last delivers, only the others forward, to their successor. |
| `Onion.PayloadSize` | orr/src/onion.rs:87-94 | A one-hop payload is as long as the body, and the payload grows by a constant and a name per further hop. |
| `Drain.RunKeepsInv` | dkms/src/admission.rs:59-99 | In every interleaving the counter is the number of guards held, and a sleeper whose generation is current has a request in flight or a notification coming. |
| `Drain.WaitersReturn` | dkms/src/admission.rs:72-87 | Once every request has let go and notified, a waiter returns by its own next two steps. |
| `Drain.ReturnsDrained` | dkms/src/admission.rs:72-87 | In every interleaving a waiter returns only at a moment when no request holds a guard. |
| `Drain.WokenByNotice` | dkms/src/admission.rs:72-99 | A sleeper is woken only by a notification made since it subscribed. |
| `Drain.DrainedExactly` | dkms/src/etsi_http/admission_layer.rs:72-96 | With the door closed and nothing in flight a request is still served later if and only if one has passed its check and not yet taken its guard. |
| `Drain.ServedAfterDrain` | dkms/src/grpc_server.rs:91-125 | A run in which draining ends and a request is served afterwards. |
| `MergeExtra.ScalarMeaning` | docker/render_config.py:172-177 | Merging a scalar means inserting it before the first table, if and only if its key does not start with a bracket. |
| `MergeExtra.TableMeaning` | docker/render_config.py:153-171 | Merging a table means inserting its entries under its header, if and only if none of their lines starts with a bracket. |
| `MergeExtraTheorems.MergeMeaning` | docker/render_config.py:137-177 | For any lines and any map without such keys, the edited text stands for the edited document: every rendered line stays under its header in order, every scalar lands before the first table, every entry under its own header. |
| `MergeExtraRefused.ScalarRefused` | docker/render_config.py:172-177 | A scalar is refused if and only if a line of any section starts with its key and a blank, or else it is no scalar. |
| `MergeExtraRefused.TableRefused` | docker/render_config.py:153-171 | A table is refused if and only if an entry is no scalar, the first such giving the reason, or a line under its header starts with an entry's key and a blank. |
| `MergeExtraRefused.MapRefused` | docker/render_config.py:137-177 | A map is refused for the first item that is, as the items before it left the lines. |
| `MergeExtraKeys.OneDistinct` | docker/render_config.py:153-177 | Reading keys and headers as TOML does, one item leaves nothing defined twice if and only if nothing was and nothing the item adds is defined twice by it or already there. |
| `MergeExtraKeys.KeysDistinct` | docker/render_config.py:137-177 | For any lines and any map without bracket keys that merges: the result defines nothing twice, as TOML reads it, if and only if the rendered text did not and no item repeats a definition of what stands before it. |
| `MergeExtraBare.OneHarmless` | docker/render_config.py:153-177 | For any lines without repetition, a bare item that passes the check repeats a definition if and only if: a scalar is spelled another way before the first table or is the first name of a table; or a table's own keys repeat, its name is a scalar's first name, an array or a header spelled otherwise, or a key of it is spelled another way under its header or is a rendered table. |
| `MergeExtraMaps.BareKeysDistinct` | docker/render_config.py:137-177 | For any lines and any map of bare keys that merges, the result defines nothing twice if and only if the lines did not, no item is harmful in that sense to the rendered lines, and no scalar of the map has the name of a table of the map. |
| `MergeExtraMaps.BareSections` | docker/render_config.py:137-177 | For any lines and any map of bare keys that merges, no section of the result has a key twice if and only if none had before, the keys within each table of the map differ, and no key of the map is spelled another way in its rendered section. |
| `MergeExtraMissed.QuotedUnseen` | docker/render_config.py:395-406 | The check misses a key rendered in quotes for exactly the bare key of the same text. |
| `MergeExtraMissed.HeadDotted` | docker/render_config.py:507-513 | The header of a peer is read as a table of its id below the first name. |
| `MergeExtraMissed.EqualsKeyRepeats` | docker/render_config.py:172-177 | A bare key with ` = w` behind it passes the check beside the rendered key and repeats it, unless the rendered value starts with `w` and a blank. |
| `MergeExtraMissed.BlankKeyRepeats` | docker/render_config.py:172-177 | So does any bare key with a blank behind it. |
| `MergeExtraMissed.QuotedKeyRepeats` | docker/render_config.py:172-177 | So does any bare key in quotes. |
| `MergeExtraMissed.BlankTableRepeats` | docker/render_config.py:153-171 | A table whose name has a blank in front opens a rendered table a second time. |
| `MergeExtraMissed.UnseenRepeats` | docker/render_config.py:153-171 | For any lines in which a key of a table is spelled another way and not as the check looks for it, the bare entry merges and the section has the key twice. |
| `MergeExtraMissed.RenderedQuotedRepeats` | docker/render_config.py:395-406 | So it is for any bare entry beside the same key rendered in quotes. |
| `MergeExtraMissed.BelowRepeats` | docker/render_config.py:153-171 | For any lines with a table at or below an entry's place, the entry merges and is a table and a value. |
| `MergeExtraMissed.DottedHeadRepeats` | docker/render_config.py:507-513 | So it is for any bare entry beside the header of a peer of that id. |
| `MergeExtraText.TextStandsForLines` | docker/render_config.py:308 | The written file reads back as the lines if and only if there are some and none contains a newline. |
| `MergeExtraText.FileMeaning` | docker/render_config.py:101-177 | It reads back as the merged lines if and only if no rendered line, key or value contains a newline, and then stands for the edited document. |
| `MergeExtraLoop.Rendering.MergeExtra` | docker/render_config.py:137-177 | The in-place loop is the specification and stops at the first item that cannot be merged. |
| `DkmsPeersSpec.RunIsExpected` | dkms/src/peers.rs:109-185 | After any sequence of lists every entry is the expected one, field by field: from the last list over the seed's or the default policy, else a seeded peer as before, else none. |
| `DkmsPeersSpec.LastEntryCounts` | dkms/src/peers.rs:143-169 | After any lists the last accepted entry of the last one for a peer gives its ORR id and its endpoint, with `https://` in front unless it has `//` in it. |
| `DkmsPeersSpec.AcceptedFirst` | dkms/src/peers.rs:113-147 | What is accepted of a list are its first 1024 proper entries. |
| `DkmsPeersSpec.NothingMalformed` | dkms/src/peers.rs:113-147 | After any lists a peer that is not in the seed is in the last list, with proper ids and an endpoint that is not empty and holds no blank. |
| `DkmsPeersSpec.RunKeepsPolicies` | dkms/src/peers.rs:148-170 | Over every run local policies never change and seeded peers never leave. |
| `DkmsPeersSpec.ReapplyChangesNothing` | dkms/src/peers.rs:171-173 | Applying the last list again changes nothing. |
| `DkmsPeers.BuildNext` | dkms/src/peers.rs:113-170 | The loop skips what is not acceptable, stops at 1024 and builds the map of the specification. |
| `DkmsPeers.PeerRegistry.FromConfig` | dkms/src/peers.rs:57-65 | The registry starts with the seed and its derived ORR map. |
| `DkmsPeers.PeerRegistry.ApplyFromSdn` | dkms/src/peers.rs:109-185 | A peer is in the cached ORR map if and only if it is registered with ORR transport and an ORR id, under that id; a change is reported if and only if there is one. |
| `Ewma.EwmaCounter.AdvanceTo` | dkms/src/demand_tracker.rs:106-115 | The loop terminates and processes every elapsed window. |
| `Ewma.EwmaCounter.Record` | dkms/src/demand_tracker.rs:87-91 | Elapsed windows first, then the keys count in the current one. |
| `Ewma.EwmaCounter.Rate` | dkms/src/demand_tracker.rs:96-100 | Elapsed windows first, then the average. |
| `Ewma.LazyIsEager` | dkms/src/demand_tracker.rs:87-115 | The lazily advanced counter equals one that updates at the end of every window. |
| `Ewma.RateIsWeighted` | dkms/src/demand_tracker.rs:87-115 | What is shown at any time is the sum over the windows that are over of alpha (1 - alpha)^later n 1000 / window. |
| `Ewma.SteadyLoad` | dkms/src/demand_tracker.rs:106-115 | A steady load brings the average from 0 to its rate, the rest shrinking by 1 - alpha each window. |
| `Ewma.LooksDoNotMatter` | dkms/src/demand_tracker.rs:93-100 | Two runs with the same additions show the same when looked at at the same time, however often each was looked at before. |
| `Ewma.EveryKeyOnce` | dkms/src/demand_tracker.rs:83-91 | Every recorded key is in exactly one window, sampled or current. |
| `Ewma.IdleDecay` | dkms/src/demand_tracker.rs:106-115 | k idle windows multiply the average by (1 - alpha)^k. |
| `Ewma.AverageBetween` | dkms/src/demand_tracker.rs:106-115 | With a weight in [0, 1] the average stays between 0 and the largest sample. |
| `TokenBucket.Bucket.TryConsume` | dkms/src/token_bucket.rs:77-87 | Takes exactly the tokens if there are enough after the refill, else says how many there are and takes none. |
| `TokenBucket.Bucket.GiveBack` | dkms/src/token_bucket.rs:90-93 | Returns tokens up to the capacity. |
| `TokenBucket.Bucket.RefillInPlace` | dkms/src/token_bucket.rs:65-72 | The bucket's clock moves only when a whole token is credited. |
| `TokenBucket.Bucket.SnapshotNow` | dkms/src/token_bucket.rs:101-105 | Refills, then tells. |
| `TokenBucket.NeverTooMuch` | dkms/src/token_bucket.rs:65-93 | Over every run and any clock readings, never more than the capacity at once, and never more in all than capacity, rate over time and refunds. |
| `TokenBucket.BooksTheBucket` | dkms/src/token_bucket.rs:65-93 | The accounts the bounds are about are those of the bucket, over every run. |
| `TokenBucket.PollingLosesLittle` | dkms/src/token_bucket.rs:65-72 | However often it is polled, credited tokens fall short of the rate by less than one per credit and one more. |
| `TokenBucket.Conserved` | dkms/src/token_bucket.rs:65-93 | Tokens are conserved exactly while nothing is cut off at the capacity. |
| `BinaryWire.PackKeys` | etsi/src/binary.rs:69-83 | The loop writes the header and each id with its material. |
| `BinaryWire.PackKeyIds` | etsi/src/binary.rs:87-97 | The loop writes the header and each id. |
| `BinaryWire.UnpackKeys` | etsi/src/binary.rs:102-129 | The cursor loop reads what the specification says; every slice lies inside the input. |
| `BinaryWire.UnpackKeyIds` | etsi/src/binary.rs:132-155 | The same for lists of ids. |
| `BinaryWire.KeysRoundTrip` | etsi/src/binary.rs:69-130 | Unpacking what was packed gives the first n keys, n the number of keys modulo 2^32: all of them if and only if there are fewer than 2^32. |
| `BinaryWire.KeysRepack` | etsi/src/binary.rs:102-130 | Whatever is accepted packs again to the front of the input. |
| `BinaryWire.IdsRoundTrip` | etsi/src/binary.rs:87-155 | The same round trip for lists of ids. |
| `BinaryWire.IdsRepack` | etsi/src/binary.rs:132-155 | The same for lists of ids. |
| `BinaryLayout.KeysLayout` | etsi/src/binary.rs:69-83 | Where each byte stands: `QKDB`, version 1, size and count least significant byte first, and key i at 11 + i (16 + k), its id before its material. |
| `BinaryLayout.IdsLayout` | etsi/src/binary.rs:87-97 | The same for lists of ids, id i at 9 + 16 i. |
| `BinaryLayout.KeysAccepted` | etsi/src/binary.rs:102-129 | A buffer is accepted if and only if it begins as it must and is long enough for the keys it announces; otherwise the error names the first thing that is wrong. |
| `BinaryLayout.IdsAccepted` | etsi/src/binary.rs:132-155 | The same for lists of ids. |
| `Macs.EncodeInjective` | orr/src/macs.rs:72-134 | What is authenticated determines the phase and every field, for fields that fit their prefixes. |
| `Macs.EncodeLayout` | orr/src/macs.rs:72-134 | Where each field stands: the phase, the epoch, who asks, who is asked, and the key or ciphertext, each name after its 16-bit length. |
| `Macs.OverlongFieldsCollide` | orr/src/macs.rs:69-80 | Fields of multiples of 65536 zero bytes can change sides unnoticed, so the bound is needed. |
| `Macs.InjectiveExactly` | orr/src/macs.rs:69-134 | For messages whose fields are bounded in length, no two authenticate the same bytes if and only if the bound is below 65536. |

## Left out

- OrrInvariant.RunKeepsInv: covers the initiator's tasks only; a passive re-bootstrap started by the larger id, and `forget`, which clears the flag of a peer that is removed, are not modelled; a restart of the initiator drops its remote calls that have not landed.
- EncKeysServed.ServedExactly: begins once the destinations are grouped by peer; the authorisation of the SAE, the validation of the body, the limit on peers at once and the refusal of `strict_qkd` without a QKD path come before it.
- EncKeysRuns.PadUsedOnce: serves requests one after another; `EncKeysInterleaved` has any number of them in any order, without tokens and pending entries.
- EncKeysInterleaved.SentOnce: is stated for runs in which no two pads come in with the same id.
- ExtKeysEndToEnd.StoredWasGenerated: is stated for senders that do not draw one id for two session keys, and envelopes whose ids and digests are the sender's, which the end-to-end layer sees to.
- Onion.OnionDelivers: is stated for paths of fewer than 2^31 hops, the range of the hop counter.
- OnionCaptured.CapturedLayerRefused: states nothing once a hop has forgotten the origin's session, after eight later ones were retired or when the origin is removed as a peer.
- OnionCaptured.RespelledRefused: is stated for windows that have not forgotten the session since they first checked it; lower-casing is any function of names, and `TwoSpellings` uses that of ASCII letters.
- Drain.DrainedExactly: waiters have no time limit; the grace period after which the shutdown goes on with requests in flight (dkms/src/grpc_server.rs:109) is not modelled.
- MergeExtraMissed.QuotedUnseen: is stated for keys without a quote or a backslash, which the templates would escape; so is `HeadDotted`.
- MergeExtraKeys.KeysDistinct: here and in `BareKeysDistinct` and `BareSections`, escapes inside quoted keys are not decoded, values are not looked into, and tables below an element of an array of tables are compared by their full names.
- Macs.EncodeInjective: is stated for epochs of 32 bits and fields of fewer than 65536 bytes; `InjectiveExactly` shows the latter bound to be exact.
- E2eFrames.RunKeepsInv: opening is one step, where `E2e::open` looks up the secret and checks the window in two critical sections; what another thread does between them is not modelled.
- Ewma.LazyIsEager: assumes a clock that does not go back and fewer than 2^64 keys in all; arithmetic is over reals.
- TokenBucket.NeverTooMuch: exact arithmetic in place of `f64`; the per-peer buckets (`SaeBufferBuckets`) are not modelled.
- DkmsPeersSpec.RunIsExpected: a seeded peer absent from the last list keeps what earlier lists said of it, as in the code.
- The length check of a shared secret in `store`, the hex form of the tag and the map of all peers in dkms/src/e2e.rs.
- Rotation by time and by volume (`spawn_rekey_loop`), which only start agreements.
- Retrieval of stored keys by SAEs (`handle_dec_keys`, `take_for_sae_of_master`), expiry sweeps, ACKs and the delivery of transport keys (`handle_orr_delivery_buffer`).
- More than 2^32 rotations under one bootstrap secret.
- The signature and pin checks on fetched public keys (`verify_announcement`, `verify_fetched_pubkey`).
- The monotonic and quiet-gated modes of the replay window, and the frame authenticators of QKC links.
- `PeerIncarnations::note_at`, random hop selection, TLS, certificates, HTTP and gRPC plumbing, configuration, logging and metrics.
- The rest of docker/render_config.py: string functions that render fixed templates.
