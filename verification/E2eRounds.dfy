/**
 Building runs: a round restarts the sender, agrees on an epoch and seals one frame under it.
 A receiver `x` sees `m` such processes of the other end, numbered from 2, with epochs
 numbered from 1; the epochs it stored are `h`, in that order.
 */
module E2eRounds {
  import opened Wrappers
  import opened Bytes
  import opened Numerals
  import opened Symbolic
  import opened Headers
  import opened ReplaySpec
  import opened E2eSpec
  import opened E2eProtocol
  import opened E2eInvariant
  import opened E2eFrames
  import opened E2eTheorems
  import opened E2eOnce
  import opened Widths

  // ---- the header of a process ----

  function HexDigit(n: nat): byte
    requires n < 16
  {
    (if n < 10 then 0x30 + n else 0x57 + n) as byte
  }

  function HeaderFor(inc: nat): Entries
    requires inc < 16
  {
    [(HDR_INCARNATION, [HexDigit(inc)])]
  }

  lemma HeaderNames(inc: nat)
    requires inc < 16
    ensures Ascending(HeaderFor(inc)) && EntriesFit(HeaderFor(inc))
    ensures NumberField(HeaderFor(inc), HDR_INCARNATION, 16, U64) == Some(inc)
  {
    var t: Text := [HexDigit(inc)];
    assert t[..|t| - 1] == [];
    assert DigitsValue(t, 16) == Some(inc);
    Small(HDR_INCARNATION);
    Small(t);
  }

  lemma Small(t: Text)
    requires |t| < 256
    ensures Fits(t)
  {
    assert Pow256(1) == 256;
    assert Pow256(4) == 256 * (256 * (256 * Pow256(1)));
  }

  lemma DecimalFits(n: nat)
    requires n < 100
    ensures Fits(ToDecimal(n))
  {
    assert n >= 10 ==> |ToDecimal(n / 10)| == 1;
    Small(ToDecimal(n));
  }

  lemma SealedFits(h: Entries, epoch: nat, counter: nat)
    requires EntriesFit(h) && Fits(ToDecimal(epoch)) && Fits(ToDecimal(counter))
    ensures EntriesFit(SealedHeader(h, epoch, counter))
  {
    var a := Insert(h, HDR_E2E_EPOCH, ToDecimal(epoch));
    var b := Insert(a, HDR_E2E_CTR, ToDecimal(counter));
    var g := Remove(b, HDR_E2E_TAG);
    InsertKeys(h, HDR_E2E_EPOCH, ToDecimal(epoch));
    InsertKeys(a, HDR_E2E_CTR, ToDecimal(counter));
    RemoveMembers(b, HDR_E2E_TAG);
    Small(HDR_E2E_EPOCH);
    Small(HDR_E2E_CTR);
    forall i | 0 <= i < |g| ensures Fits(g[i].0) && Fits(g[i].1) {
      assert g[i] in g && g[i] in b;
      assert g[i] == (HDR_E2E_CTR, ToDecimal(counter)) || g[i] in a;
      assert g[i] in a ==> g[i] == (HDR_E2E_EPOCH, ToDecimal(epoch)) || g[i] in h;
    }
  }

  // ---- one round: restart, agree, seal ----

  const KEY_ID: Text := []

  lemma Asks(net: Net, s: Sys, c: Side, t: nat)
    requires MayStart(s.At(c).view, t)
    ensures var s' := AskStep(net, s, c, t); var e := s'.At(c);
            && s' == s.With(c, e).(nextKey := s.nextKey + 1)
            && e == s.At(c).(view := e.view, exch := Asked(s.nextKey))
            && e.view == s.At(c).view.(inflight := true, lastAttempt := Some(t), pending := Some((s.nextKey, t)))
  {
  }

  /** What an answer stores at the responder and brings to the asker. */
  lemma Answers(net: Net, s: Sys, x: Side, epoch: nat, t: nat)
    requires net.leftCfg.suite == net.rightCfg.suite && s.At(Other(x)).exch.Asked? && Drawable(s, epoch)
    requires Admitted(s.At(x).view, net.CfgOf(x), t).Some?
    ensures var s' := AnswerStep(net, s, x, epoch, t); var z := Other(x); var k := s.At(z).exch.key; var e := s'.At(x);
            && e.hist == s.At(x).hist + [(epoch, Shared(k, s.nextCoin))] && e.inc == s.At(x).inc && e.exch == s.At(x).exch
            && e.view.replay == s.At(x).view.replay && SameAsking(s.At(x).view, e.view)
            && e.view.recent == [] && e.view.counter == s.At(x).view.counter && e.view.sendEpoch == Some(epoch)
            && s'.At(z) == s.At(z).(exch := Answered(KemResponse(net.CfgOf(z).suite, epoch, Some(KemCiphertext(k, s.nextCoin)))))
            && s'.births.Keys == s.births.Keys + {epoch}
            && s'.log == s.log && s'.openings == s.openings && s'.nextInc == s.nextInc
  {
  }

  /** The responder's clock, when its limit does not apply. */
  lemma AnswerTime(net: Net, s: Sys, x: Side, epoch: nat, t: nat)
    requires net.leftCfg.suite == net.rightCfg.suite && s.At(Other(x)).exch.Asked? && Drawable(s, epoch)
    requires s.At(x).view.lastResponse.Some? ==> Elapsed(t, s.At(x).view.lastResponse.value) >= AGREEMENT_MIN_INTERVAL
    ensures Admitted(s.At(x).view, net.CfgOf(x), t).Some?
    ensures AnswerStep(net, s, x, epoch, t).At(x).view.lastResponse == Some(t)
  {
  }

  ghost predicate SameAsking(v: PeerView, v': PeerView) {
    v'.pending == v.pending && v'.inflight == v.inflight && v'.lastAttempt == v.lastAttempt
  }

  /** The asker takes the answer. */
  lemma Finishes(net: Net, s: Sys, c: Side, t: nat)
    requires s.At(c).exch.Answered? && s.At(c).view.pending.Some? && Elapsed(t, s.At(c).view.pending.value.1) <= PENDING_ESK_TTL
    requires var r := s.At(c).exch.resp; r.epoch != 0 && r.suite == net.CfgOf(c).suite && r.ct.Some?
    ensures var s' := FinishStep(net, s, c, t); var e, r := s'.At(c), s.At(c).exch.resp;
            && s' == s.With(c, e) && e.inc == s.At(c).inc && !e.view.inflight
            && |e.hist| == |s.At(c).hist| + 1 && e.hist[..|s.At(c).hist|] == s.At(c).hist && e.hist[|s.At(c).hist|].0 == r.epoch
            && e.view.recent == [] && e.view.counter == s.At(c).view.counter && e.view.sendEpoch == Some(r.epoch)
            && e.view.replay == s.At(c).view.replay && e.view.lastResponse == s.At(c).view.lastResponse
  {
  }

  /** After `m` rounds: the receiver has stored the epochs `h`, and each process of the sender
      has sealed once, under its own epoch. */
  ghost predicate Stage(s: Sys, x: Side, m: nat, h: seq<nat>) {
    var e, z := s.At(x), s.At(Other(x));
    && s.nextInc == 2 + m && (m > 0 ==> z.inc == 1 + m) && !z.view.inflight && z.view.counter <= 1
    && |e.hist| == |h| && (forall i :: 0 <= i < |h| ==> e.hist[i].0 == h[i])
    && (forall b :: b in s.births ==> b <= m)
    && |s.log| == m && (forall i :: 0 <= i < m ==> Logged(s.log[i], x, i))
    && (e.view.lastResponse.Some? ==> e.view.lastResponse.value <= 2000 * m)
  }

  ghost predicate Logged(r: Record, x: Side, i: nat) {
    r.from == Other(x) && r.epoch == i + 1 && r.inc == 2 + i
  }

  /** The states a round goes through. */
  ghost function Agreed(net: Net, s: Sys, x: Side, m: nat): Sys {
    var z, t := Other(x), 2000 * (m + 1);
    FinishStep(net, AnswerStep(net, AskStep(net, RestartStep(net, s, z), z, t), x, m + 1, t), z, t)
  }

  /** A new process of the sender, about to seal under its only epoch. */
  ghost predicate Renewed(e: End, m: nat) {
    && e.inc == 2 + m && |e.hist| == 1 && e.hist[0].0 == m + 1 && !e.view.inflight
    && e.view.recent == [] && e.view.counter == 0 && e.view.sendEpoch == Some(m + 1)
  }

  /** What the round has done so far to the rest. */
  ghost predicate Surrounded(s: Sys, d: Sys, x: Side, m: nat) {
    && d.nextInc == 3 + m && d.log == s.log && d.openings == s.openings && d.births.Keys == s.births.Keys + {m + 1}
    && d.At(x).inc == s.At(x).inc && d.At(x).view.replay == s.At(x).view.replay
    && (d.At(x).view.lastResponse.Some? ==> d.At(x).view.lastResponse.value <= 2000 * (m + 1))
  }

  /** The receiver stored the epoch of the round. */
  ghost predicate Stores(s: Sys, d: Sys, x: Side, m: nat) {
    var n := |s.At(x).hist|;
    && |d.At(x).hist| == n + 1 && d.At(x).hist[..n] == s.At(x).hist && d.At(x).hist[n].0 == m + 1
    && d.At(x).exch == s.At(x).exch && SameAsking(s.At(x).view, d.At(x).view)
  }

  /** A new process of the sender has asked. */
  ghost predicate Asking(s: Sys, b: Sys, x: Side, m: nat, t: nat) {
    var e := b.At(Other(x));
    && b.At(x) == s.At(x) && b.nextInc == 3 + m && b.log == s.log && b.openings == s.openings && b.births == s.births
    && e.inc == 2 + m && e.hist == [] && e.view.counter == 0 && e.exch.Asked? && e.view.pending == Some((e.exch.key, t))
  }

  lemma RoundAsks(net: Net, s: Sys, x: Side, m: nat, t: nat)
    requires s.nextInc == 2 + m
    ensures Asking(s, AskStep(net, RestartStep(net, s, Other(x)), Other(x), t), x, m, t)
  {
    var z := Other(x);
    var a := RestartStep(net, s, z);
    assert a.At(x) == s.At(x) && a.At(z) == NewEnd(net.CfgOf(z), 2 + m);
    Asks(net, a, z, t);
  }

  /** The receiver has answered it. */
  ghost predicate Answering(net: Net, s: Sys, c: Sys, x: Side, m: nat, t: nat) {
    var e := c.At(Other(x));
    && Surrounded(s, c, x, m) && Stores(s, c, x, m)
    && e.inc == 2 + m && e.hist == [] && e.view.counter == 0 && e.exch.Answered?
    && e.exch.resp.epoch == m + 1 && e.exch.resp.suite == net.CfgOf(Other(x)).suite && e.exch.resp.ct.Some?
    && e.view.pending.Some? && e.view.pending.value.1 == t
  }

  lemma RoundAnswers(net: Net, s: Sys, b: Sys, x: Side, m: nat, h: seq<nat>, t: nat)
    requires net.leftCfg.suite == net.rightCfg.suite && Stage(s, x, m, h) && m < 12 && Asking(s, b, x, m, t) && t == 2000 * (m + 1)
    ensures Answering(net, s, AnswerStep(net, b, x, m + 1, t), x, m, t)
  {
    AnswerTime(net, b, x, m + 1, t);
    Answers(net, b, x, m + 1, t);
  }

  lemma RoundFinishes(net: Net, s: Sys, c: Sys, x: Side, m: nat, t: nat)
    requires Answering(net, s, c, x, m, t)
    ensures var d := FinishStep(net, c, Other(x), t);
            Renewed(d.At(Other(x)), m) && Surrounded(s, d, x, m) && Stores(s, d, x, m)
  {
    Finishes(net, c, Other(x), t);
  }

  lemma RoundAgrees(net: Net, s: Sys, x: Side, m: nat, h: seq<nat>)
    requires net.leftCfg.suite == net.rightCfg.suite && Stage(s, x, m, h) && m < 12
    ensures var d := Agreed(net, s, x, m); Renewed(d.At(Other(x)), m) && Surrounded(s, d, x, m) && Stores(s, d, x, m)
  {
    var z, t := Other(x), 2000 * (m + 1);
    RoundAsks(net, s, x, m, t);
    var b := AskStep(net, RestartStep(net, s, z), z, t);
    RoundAnswers(net, s, b, x, m, h, t);
    RoundFinishes(net, s, AnswerStep(net, b, x, m + 1, t), x, m, t);
  }

  lemma {:induction false} AfterConcat(net: Net, s: Sys, a: seq<Step>, b: seq<Step>)
    ensures After(net, s, a + b) == After(net, After(net, s, a), b)
  {
    if b == [] {
      assert a + b == a;
    } else {
      AfterConcat(net, s, a, b[..|b| - 1]);
      assert (a + b)[..|a + b| - 1] == a + b[..|b| - 1];
    }
  }

  lemma AfterOne(net: Net, s: Sys, a: Step)
    ensures After(net, s, [a]) == Next(net, s, a)
  {
    assert [a][..0] == [];
  }

  function AgreeSteps(x: Side, m: nat): seq<Step> {
    var z, t := Other(x), 2000 * (m + 1);
    [Restart(z)] + [Ask(z, t)] + [Answer(x, m + 1, t)] + [Finish(z, t)]
  }

  lemma AfterAgree(net: Net, s: Sys, x: Side, m: nat)
    ensures After(net, s, AgreeSteps(x, m)) == Agreed(net, s, x, m)
  {
    var z, t := Other(x), 2000 * (m + 1);
    AfterConcat(net, s, [Restart(z)] + [Ask(z, t)] + [Answer(x, m + 1, t)], [Finish(z, t)]);
    AfterConcat(net, s, [Restart(z)] + [Ask(z, t)], [Answer(x, m + 1, t)]);
    AfterConcat(net, s, [Restart(z)], [Ask(z, t)]);
    AfterOne(net, s, Restart(z));
    var a := RestartStep(net, s, z);
    AfterOne(net, a, Ask(z, t));
    var b := AskStep(net, a, z, t);
    AfterOne(net, b, Answer(x, m + 1, t));
    AfterOne(net, AnswerStep(net, b, x, m + 1, t), Finish(z, t));
  }

  function SealStep(x: Side, m: nat): Step
    requires m < 12
  {
    Emit(Other(x), KEY_ID, HeaderFor(2 + m), [])
  }

  lemma RoundSeals(net: Net, d: Sys, x: Side, m: nat)
    requires m < 12 && Renewed(d.At(Other(x)), m)
    ensures Seals(net, d, Other(x), KEY_ID, HeaderFor(2 + m))
    ensures Logged(Sealing(net, d, Other(x), KEY_ID, HeaderFor(2 + m), []), x, m)
  {
    HeaderNames(2 + m);
    DecimalFits(m + 1);
    DecimalFits(1);
    SealedFits(HeaderFor(2 + m), m + 1, 1);
  }

  /** The receiver's window has not noticed. */
  ghost predicate Unnoticed(s: Sys, s': Sys, x: Side, m: nat) {
    s'.At(x).view.replay == s.At(x).view.replay && s'.openings == s.openings && |s'.log| == m + 1 && s'.log[..m] == s.log
  }

  lemma RoundStage(s: Sys, d: Sys, s': Sys, x: Side, m: nat, h: seq<nat>, h': seq<nat>, r: Record)
    requires Stage(s, x, m, h) && Renewed(d.At(Other(x)), m) && Surrounded(s, d, x, m)
    requires Logs(d, s', Other(x), r) && Logged(r, x, m)
    requires |d.At(x).hist| == |h'| && forall i :: 0 <= i < |h'| ==> d.At(x).hist[i].0 == h'[i]
    ensures Stage(s', x, m + 1, h') && Unnoticed(s, s', x, m) && s'.At(x) == d.At(x)
  {
    assert s'.At(x) == d.At(x) && s'.births == d.births && s'.log == s.log + [r];
    forall e | e in s'.births ensures e <= m + 1 { assert e in d.births.Keys; }
  }

  lemma RoundEmits(net: Net, s: Sys, d: Sys, x: Side, m: nat, h: seq<nat>, h': seq<nat>)
    requires Stage(s, x, m, h) && Renewed(d.At(Other(x)), m) && Surrounded(s, d, x, m) && m < 12 && EndInv(net, d, Other(x))
    requires |d.At(x).hist| == |h'| && forall i :: 0 <= i < |h'| ==> d.At(x).hist[i].0 == h'[i]
    ensures var s' := EmitStep(net, d, Other(x), KEY_ID, HeaderFor(2 + m), []);
            Stage(s', x, m + 1, h') && Unnoticed(s, s', x, m) && s'.At(x) == d.At(x)
  {
    var z := Other(x);
    RoundSeals(net, d, x, m);
    Emitted(net, d, z, KEY_ID, HeaderFor(2 + m), []);
    RoundStage(s, d, EmitStep(net, d, z, KEY_ID, HeaderFor(2 + m), []), x, m, h, h', Sealing(net, d, z, KEY_ID, HeaderFor(2 + m), []));
  }

  lemma HistoryGrows(s: Sys, d: Sys, x: Side, m: nat, h: seq<nat>)
    requires Stage(s, x, m, h) && Stores(s, d, x, m)
    ensures |d.At(x).hist| == |h + [m + 1]| && forall i :: 0 <= i < |h + [m + 1]| ==> d.At(x).hist[i].0 == (h + [m + 1])[i]
  {
    forall i | 0 <= i < |h + [m + 1]| ensures d.At(x).hist[i].0 == (h + [m + 1])[i] {
      if i < |h| { assert d.At(x).hist[..|h|][i] == d.At(x).hist[i]; }
    }
  }

  lemma SideOf(net: Net, s: Sys, x: Side)
    requires Inv(net, s)
    ensures EndInv(net, s, x)
  {
  }

  function RoundSteps(x: Side, m: nat): seq<Step>
    requires m < 12
  {
    AgreeSteps(x, m) + [SealStep(x, m)]
  }

  lemma AfterRound(net: Net, s: Sys, x: Side, m: nat)
    requires m < 12
    ensures After(net, s, RoundSteps(x, m)) == EmitStep(net, Agreed(net, s, x, m), Other(x), KEY_ID, HeaderFor(2 + m), [])
  {
    AfterAgree(net, s, x, m);
    AfterConcat(net, s, AgreeSteps(x, m), [SealStep(x, m)]);
    AfterOne(net, Agreed(net, s, x, m), SealStep(x, m));
  }

  /** What one more round adds. */
  ghost predicate Added(s: Sys, s': Sys, x: Side, m: nat, h: seq<nat>) {
    && Stage(s', x, m + 1, h + [m + 1]) && Unnoticed(s, s', x, m)
    && s'.At(x).exch == s.At(x).exch && SameAsking(s.At(x).view, s'.At(x).view)
  }

  lemma RoundDone(net: Net, s: Sys, d: Sys, x: Side, m: nat, h: seq<nat>)
    requires net.leftCfg.suite == net.rightCfg.suite && Stage(s, x, m, h) && m < 12
    requires Renewed(d.At(Other(x)), m) && Surrounded(s, d, x, m) && Stores(s, d, x, m) && EndInv(net, d, Other(x))
    ensures Added(s, EmitStep(net, d, Other(x), KEY_ID, HeaderFor(2 + m), []), x, m, h)
  {
    HistoryGrows(s, d, x, m, h);
    RoundEmits(net, s, d, x, m, h, h + [m + 1]);
  }

  /** One more round, in which the sender asks. */
  lemma Round(net: Net, s: Sys, x: Side, m: nat, h: seq<nat>)
    requires net.WellFormed() && net.leftCfg.suite == net.rightCfg.suite && Inv(net, s) && Stage(s, x, m, h) && m < 12
    ensures Added(s, After(net, s, RoundSteps(x, m)), x, m, h)
  {
    AfterKeepsInv(net, s, AgreeSteps(x, m));
    AfterAgree(net, s, x, m);
    SideOf(net, Agreed(net, s, x, m), Other(x));
    RoundAgrees(net, s, x, m, h);
    RoundDone(net, s, Agreed(net, s, x, m), x, m, h);
    AfterRound(net, s, x, m);
  }

  lemma AddRound(net: Net, steps: seq<Step>, x: Side, m: nat, h: seq<nat>) returns (steps': seq<Step>)
    requires net.WellFormed() && net.leftCfg.suite == net.rightCfg.suite && Stage(Run(net, steps), x, m, h) && m < 12
    ensures Added(Run(net, steps), Run(net, steps'), x, m, h)
  {
    RunKeepsInv(net, steps);
    Round(net, Run(net, steps), x, m, h);
    steps' := steps + RoundSteps(x, m);
    AfterConcat(net, Init(net), steps, RoundSteps(x, m));
  }

  // ---- one delivery ----

  function FrameFor(r: Record): Frame { Frame(r.sealed.header, Some(r.sealed.tag), r.keyId, r.sealed.ct) }

  lemma FrameCarries(net: Net, s: Sys, r: Record)
    requires RecordInv(net, s, r)
    ensures Carries(FrameFor(r), r)
  {
    var h := r.sealed.header;
    forall i, j | 0 <= i < j < |h| ensures h[i].0 != h[j].0 {
      LessTotal(h[i].0, h[i].0);
    }
  }

  /** Frame `j` was sealed under the epoch the receiver stored at place `k`, and still holds. */
  ghost predicate HeldAt(net: Net, x: Side, h: seq<nat>, j: nat, k: nat) {
    k < |h| <= k + Kept(net, x) && h[k] == j + 1
  }

  lemma HeldByReceiver(net: Net, s: Sys, x: Side, m: nat, h: seq<nat>, j: nat, k: nat)
    requires EndInv(net, s, x) && Stage(s, x, m, h) && j < m && HeldAt(net, x, h, j, k) && RecordInv(net, s, s.log[j])
    ensures SecretFor(s.At(x).view.epochs, s.log[j].epoch) == Some(s.log[j].secret)
  {
    assert Logged(s.log[j], x, j);
    HeldSecret(net, s, x, k);
    assert Assigned(s, x, s.At(x).inc, s.At(x).hist[k]);
  }

  /** A frame whose process the window does not remember is opened, and the process adopted. */
  ghost predicate Adopts(s: Sys, s': Sys, x: Side, j: nat)
    requires j < |s.log|
  {
    && s'.log == s.log && |s'.openings| == |s.openings| + 1 && s'.openings[..|s.openings|] == s.openings
    && s'.openings[|s.openings|].tag == s.log[j].sealed.tag
    && Remembered(s'.At(x).view.replay) == Bounded(Remembered(s.At(x).view.replay) + [2 + j], REMEMBERED)
    && s'.At(x).exch == s.At(x).exch && SameAsking(s.At(x).view, s'.At(x).view)
  }

  /** A process the window does not remember is accepted with any counter and adopted. */
  lemma UnknownAdopted(w: Window, session: nat, counter: nat)
    requires Sound(w) && session !in Remembered(w) && counter > 0
    ensures CheckAndSet(w, session, counter).1.None?
    ensures Remembered(CheckAndSet(w, session, counter).0) == Bounded(Remembered(w) + [session], REMEMBERED)
  {
    UnknownAccepted(w, session, counter);
    CheckRemembers(w, session, counter);
  }

  lemma PassesStage(s: Sys, s': Sys, x: Side, m: nat, h: seq<nat>, e: End)
    requires Stage(s, x, m, h) && s' == s.With(x, e).(openings := s'.openings)
    requires e.hist == s.At(x).hist && e.view.lastResponse == s.At(x).view.lastResponse
    ensures Stage(s', x, m, h) && s'.log == s.log && s'.At(x) == e
  {
  }

  lemma PassesParts(s: Sys, s': Sys, x: Side, f: Frame)
    requires f.Complete() && Passes(s, s', x, f)
    requires Sound(s.At(x).view.replay) && f.SessionId().value !in Remembered(s.At(x).view.replay) && f.Counter().value > 0
    ensures s' == s.With(x, s'.At(x)).(openings := s'.openings)
    ensures s'.At(x).hist == s.At(x).hist && s'.At(x).view.lastResponse == s.At(x).view.lastResponse
    ensures s'.At(x).exch == s.At(x).exch && SameAsking(s.At(x).view, s'.At(x).view)
    ensures Remembered(s'.At(x).view.replay) == Bounded(Remembered(s.At(x).view.replay) + [f.SessionId().value], REMEMBERED)
    ensures s'.openings == s.openings + [f.OpenedBy(x, s.At(x).inc)]
  {
    UnknownAdopted(s.At(x).view.replay, f.SessionId().value, f.Counter().value);
  }

  lemma PassesAdopts(s: Sys, s': Sys, x: Side, m: nat, h: seq<nat>, f: Frame, j: nat)
    requires Stage(s, x, m, h) && j < m && f.Complete() && Passes(s, s', x, f) && Presents(s, x, f, s.log[j])
    requires s.log[j].counter > 0 && Sound(s.At(x).view.replay) && 2 + j !in Remembered(s.At(x).view.replay)
    ensures Stage(s', x, m, h) && Adopts(s, s', x, j)
  {
    assert Logged(s.log[j], x, j);
    PassesParts(s, s', x, f);
    PassesStage(s, s', x, m, h, s'.At(x));
  }

  lemma DeliverLogged(net: Net, s: Sys, x: Side, m: nat, h: seq<nat>, j: nat, k: nat)
    requires net.WellFormed() && SideInv(net, s, x) && Stage(s, x, m, h) && j < m && HeldAt(net, x, h, j, k) && RecordInv(net, s, s.log[j])
    requires 2 + j !in Remembered(s.At(x).view.replay)
    ensures var s' := DeliverStep(net, s, x, FrameFor(s.log[j])); Stage(s', x, m, h) && Adopts(s, s', x, j)
  {
    var r, f := s.log[j], FrameFor(s.log[j]);
    assert Logged(r, x, j);
    FrameCarries(net, s, r);
    HeldByReceiver(net, s, x, m, h, j, k);
    CarriedVerifies(net, s, x, f, r);
    Authentic(net, s, x, f, r);
    Delivered(net, s, x, f);
    PassesAdopts(s, DeliverStep(net, s, x, f), x, m, h, f, j);
  }

  lemma RunSides(net: Net, steps: seq<Step>, x: Side, j: nat)
    requires net.WellFormed() && j < |Run(net, steps).log|
    ensures SideInv(net, Run(net, steps), x) && RecordInv(net, Run(net, steps), Run(net, steps).log[j])
  {
    RunKeepsInv(net, steps);
  }

  lemma AddDelivery(net: Net, steps: seq<Step>, x: Side, f: Frame) returns (steps': seq<Step>)
    ensures Run(net, steps') == DeliverStep(net, Run(net, steps), x, f)
  {
    steps' := steps + [Deliver(x, f)];
    AfterConcat(net, Init(net), steps, [Deliver(x, f)]);
    AfterOne(net, Run(net, steps), Deliver(x, f));
  }
}
