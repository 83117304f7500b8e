/**
 Two DKMSs running the end-to-end layer against each other (dkms/src/e2e.rs), as a
 transition system. Either end may ask for an agreement, answer one, lose a reply, give up,
 restart with an empty state, or seal. The network may drop, delay, reorder and repeat
 what was sealed, and may splice or alter any part of it; it cannot compute a tag.

 Assumptions: ephemeral key pairs, encapsulation coins, process incarnations and the epoch
 numbers drawn by responders never repeat during a run; header fields fit their 32-bit
 length prefixes.
 */
module E2eProtocol {
  import opened Wrappers
  import opened Bytes
  import opened Symbolic
  import opened Headers
  import opened ReplaySpec
  import opened E2eSpec
  import opened Widths

  datatype Side = Left | Right

  function Other(x: Side): Side { if x == Left then Right else Left }

  datatype Net = Net(leftCfg: Cfg, rightCfg: Cfg, leftId: Text, rightId: Text) {
    function CfgOf(x: Side): Cfg { if x == Left then leftCfg else rightCfg }
    function Id(x: Side): Text { if x == Left then leftId else rightId }
    ghost predicate WellFormed() { leftId != rightId && Fits(leftId) && Fits(rightId) }
  }

  /** The exchange an end has asked for, if any. */
  datatype Exchange = Idle | Asked(key: nat) | Answered(resp: KemResponse) | Lost

  /** One end. `hist` and `via` only record the past: every epoch this process stored, and
      for each session its replay window remembers, which of them adopted it. */
  datatype End = End(view: PeerView, inc: nat, exch: Exchange, hist: Epochs, via: seq<nat>)

  /** A request whose asker gave up before it was answered; it may still arrive. */
  datatype Stray = Stray(asker: Side, inc: nat, key: nat)

  /** The secret an epoch number was assigned with, and the processes it was meant for. */
  datatype Birth = Birth(secret: Secret, left: nat, right: nat) {
    function Party(x: Side): nat { if x == Left then left else right }
  }

  datatype Record = Record(from: Side, inc: nat, counter: nat, epoch: nat, secret: Secret,
                           keyId: Text, plain: Text, sealed: SealedKey)

  /** A frame as the network presents it. */
  datatype Frame = Frame(header: Entries, tag: Option<E2eTag>, keyId: Text, ct: E2eCipher) {
    function Epoch(): Option<nat> { NumberField(header, HDR_E2E_EPOCH, 10, U32) }
    function Counter(): Option<nat> { NumberField(header, HDR_E2E_CTR, 10, U64) }
    function SessionId(): Option<nat> { NumberField(header, HDR_INCARNATION, 16, U64) }
    predicate Complete() { Epoch().Some? && Counter().Some? && SessionId().Some? && tag.Some? }
    function OpenedBy(x: Side, inc: nat): Opening
      requires Complete()
    {
      Opening(x, inc, tag.value, ct.plain, Epoch().value, SessionId().value, Counter().value)
    }
  }

  /** A frame that was opened: by which process, and what it said of itself. */
  datatype Opening = Opening(to: Side, inc: nat, tag: E2eTag, plain: Text, epoch: nat, session: nat, counter: nat)

  datatype Sys = Sys(left: End, right: End, stray: set<Stray>,
                     nextKey: nat, nextCoin: nat, nextInc: nat,
                     births: map<nat, Birth>, log: seq<Record>, openings: seq<Opening>) {
    function At(x: Side): End { if x == Left then left else right }
    function With(x: Side, e: End): Sys { if x == Left then this.(left := e) else this.(right := e) }
  }

  function NewEnd(cfg: Cfg, inc: nat): End { End(NewPeer(cfg), inc, Idle, [], []) }

  function Init(net: Net): Sys {
    Sys(NewEnd(net.leftCfg, 0), NewEnd(net.rightCfg, 1), {}, 0, 0, 2, map[], [], [])
  }

  datatype Step =
    | Ask(x: Side, now: nat)
    | Answer(x: Side, epoch: nat, now: nat)
    | AnswerStray(x: Side, stray: Stray, epoch: nat, now: nat)
    | Finish(x: Side, now: nat)
    | GiveUp(x: Side)
    | Restart(x: Side)
    | Emit(x: Side, keyId: Text, header: Entries, plain: Text)
    | Deliver(x: Side, frame: Frame)

  // ---- the steps ----

  function AskStep(net: Net, s: Sys, x: Side, now: nat): Sys {
    var e := s.At(x);
    if !MayStart(e.view, now) then s else
    s.With(x, e.(view := Begun(Started(e.view, now), s.nextKey, now), exch := Asked(s.nextKey))).(nextKey := s.nextKey + 1)
  }

  /** `x` answers a request made by process `asker` of the other end with key pair `key`. */
  function RespondStep(net: Net, s: Sys, x: Side, asker: nat, key: nat, epoch: nat, now: nat)
    : (Sys, Option<KemResponse>)
  {
    var e := s.At(x);
    var req := KemRequest(net.CfgOf(Other(x)).suite, Some(key));
    var (v, r) := Respond(e.view, net.CfgOf(x), req, s.nextCoin, epoch, now);
    if r.Err? then (s.With(x, e.(view := v)), None) else
    var secret := Shared(key, s.nextCoin);
    var birth := if x == Left then Birth(secret, e.inc, asker) else Birth(secret, asker, e.inc);
    (s.With(x, e.(view := v, hist := e.hist + [(epoch, secret)])).(nextCoin := s.nextCoin + 1, births := s.births[epoch := birth]),
     Some(r.value))
  }

  /** Epoch numbers are fresh 32-bit draws. */
  predicate Drawable(s: Sys, epoch: nat) { 0 < epoch < U32 && epoch !in s.births }

  function AnswerStep(net: Net, s: Sys, x: Side, epoch: nat, now: nat): Sys {
    var asker := s.At(Other(x));
    if !asker.exch.Asked? || !Drawable(s, epoch) then s else
    var (s1, resp) := RespondStep(net, s, x, asker.inc, asker.exch.key, epoch, now);
    s1.With(Other(x), asker.(exch := if resp.Some? then Answered(resp.value) else Lost))
  }

  function AnswerStrayStep(net: Net, s: Sys, x: Side, stray: Stray, epoch: nat, now: nat): Sys {
    if stray !in s.stray || stray.asker == x || !Drawable(s, epoch) then s else
    RespondStep(net, s, x, stray.inc, stray.key, epoch, now).0.(stray := s.stray - {stray})
  }

  function FinishStep(net: Net, s: Sys, x: Side, now: nat): Sys {
    var e := s.At(x);
    if !e.exch.Answered? then s else
    var resp := e.exch.resp;
    var (v, r) := Complete(e.view, net.CfgOf(x), resp, now);
    var hist := if r.Ok? then e.hist + [(resp.epoch, Decap(e.view.pending.value.0, resp.ct.value))] else e.hist;
    s.With(x, e.(view := Ended(v, r.Err?), exch := Idle, hist := hist))
  }

  /** The requests this end leaves behind when it stops waiting. */
  function Abandoned(x: Side, e: End): set<Stray> {
    if e.exch.Asked? then {Stray(x, e.inc, e.exch.key)} else {}
  }

  function GiveUpStep(s: Sys, x: Side): Sys {
    var e := s.At(x);
    if e.exch.Idle? then s else
    s.With(x, e.(view := Ended(e.view, true), exch := Idle)).(stray := s.stray + Abandoned(x, e))
  }

  function RestartStep(net: Net, s: Sys, x: Side): Sys {
    s.With(x, NewEnd(net.CfgOf(x), s.nextInc)).(nextInc := s.nextInc + 1, stray := s.stray + Abandoned(x, s.At(x)))
  }

  /** What the generator hands to `seal`: an ordered header naming this process. */
  ghost predicate Sendable(e: End, header: Entries) {
    && Ascending(header)
    && NumberField(header, HDR_INCARNATION, 16, U64) == Some(e.inc)
    && e.view.counter + 1 < U64
    && EntriesFit(header)
    && (e.view.sendEpoch.Some? ==> EntriesFit(SealedHeader(header, e.view.sendEpoch.value, e.view.counter + 1)))
  }

  ghost function EmitStep(net: Net, s: Sys, x: Side, keyId: Text, header: Entries, plain: Text): Sys {
    var e := s.At(x);
    if !Sendable(e, header) then s else
    var (v, r) := Seal(e.view, net.Id(x), net.Id(Other(x)), keyId, header, plain);
    if r.Err? then s.With(x, e.(view := v)) else
    var epoch := e.view.sendEpoch.value;
    var rec := Record(x, e.inc, v.counter, epoch, SecretFor(e.view.epochs, epoch).value, keyId, plain, r.value);
    s.With(x, e.(view := v)).(log := s.log + [rec])
  }

  /** The network reuses tags it has seen and can otherwise only make up invalid ones. */
  ghost predicate Presentable(s: Sys, f: Frame) {
    && Distinct(f.header) && EntriesFit(f.header)
    && (f.tag.Some? && f.tag.value.Tag? ==> exists i :: 0 <= i < |s.log| && s.log[i].sealed.tag == f.tag.value)
  }

  function IndexOf(hist: Epochs, epoch: nat): nat {
    if hist == [] || hist[0].0 == epoch then 0 else 1 + IndexOf(hist[1..], epoch)
  }

  /** The adopting epochs kept in step with the sessions the window remembers. */
  function ViaAfter(e: End, after: Window, epoch: nat): seq<nat> {
    var before := Remembered(e.view.replay);
    if Remembered(after) == before then e.via
    else Bounded(e.via + [IndexOf(e.hist, epoch)], REMEMBERED)
  }

  ghost function DeliverStep(net: Net, s: Sys, x: Side, f: Frame): Sys {
    var e := s.At(x);
    if !Presentable(s, f) then s else
    var (v, r) := Open(e.view, net.Id(x), net.Id(Other(x)), f.header, f.tag, f.keyId, f.ct);
    var via := if f.Epoch().Some? then ViaAfter(e, v.replay, f.Epoch().value) else e.via;
    var s1 := s.With(x, e.(view := v, via := via));
    if r.Ok? then s1.(openings := s.openings + [f.OpenedBy(x, e.inc)]) else s1
  }

  ghost function Next(net: Net, s: Sys, step: Step): Sys {
    match step
    case Ask(x, now) => AskStep(net, s, x, now)
    case Answer(x, epoch, now) => AnswerStep(net, s, x, epoch, now)
    case AnswerStray(x, stray, epoch, now) => AnswerStrayStep(net, s, x, stray, epoch, now)
    case Finish(x, now) => FinishStep(net, s, x, now)
    case GiveUp(x) => GiveUpStep(s, x)
    case Restart(x) => RestartStep(net, s, x)
    case Emit(x, keyId, header, plain) => EmitStep(net, s, x, keyId, header, plain)
    case Deliver(x, frame) => DeliverStep(net, s, x, frame)
  }

  /** The state after some steps; a step that is not enabled changes nothing. */
  ghost function After(net: Net, s: Sys, steps: seq<Step>): Sys {
    if steps == [] then s else Next(net, After(net, s, steps[..|steps| - 1]), steps[|steps| - 1])
  }

  /** The state a run from scratch ends in. */
  ghost function Run(net: Net, steps: seq<Step>): Sys { After(net, Init(net), steps) }
}
