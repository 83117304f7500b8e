/**
 What one process seals for one peer over a whole run of seals and rotations: the counters
 it uses and how far apart two seals of one key id are (dkms/src/e2e.rs, `RecentKeyIds`,
 `PeerState::store` and `E2e::seal`).
 */
module E2eSeals {
  import opened Wrappers
  import opened Bytes
  import opened Symbolic
  import opened Headers
  import opened E2eSpec

  datatype SendOp =
    | Rotate(epoch: nat, secret: Secret)
    | Emit(keyId: Text, header: Entries, plain: Text)

  /** An accepted seal, with the number of rotations before it. */
  datatype Sent = Sent(keyId: Text, counter: nat, tenure: nat)

  datatype Sender = Sender(view: PeerView, tenure: nat, log: seq<Sent>)

  function Step(s: Sender, keep: nat, op: SendOp): Sender {
    match op
    case Rotate(e, k) => s.(view := Stored(s.view, e, k, keep), tenure := s.tenure + 1)
    case Emit(id, h, p) =>
      var (v, r) := Seal(s.view, [], [], id, h, p);
      s.(view := v, log := if r.Ok? then s.log + [Sent(id, v.counter, s.tenure)] else s.log)
  }

  function Run(cfg: Cfg, ops: seq<SendOp>): Sender {
    if ops == [] then Sender(NewPeer(cfg), 0, [])
    else Step(Run(cfg, ops[..|ops| - 1]), cfg.keep, ops[|ops| - 1])
  }

  /** The key ids accepted since the last rotation, oldest first. */
  function TenureIds(log: seq<Sent>, tenure: nat): (ids: seq<Text>)
    ensures |ids| <= |log|
    ensures forall i :: 0 <= i < |ids| ==> ids[i] == log[|log| - |ids| + i].keyId
  {
    if log == [] || log[|log| - 1].tenure != tenure then []
    else TenureIds(log[..|log| - 1], tenure) + [log[|log| - 1].keyId]
  }

  ghost predicate Inv(s: Sender) {
    && s.view.counter == |s.log|
    && (forall i :: 0 <= i < |s.log| ==> s.log[i].counter == i + 1 && s.log[i].tenure <= s.tenure)
    && s.view.recent == Newest(TenureIds(s.log, s.tenure), GUARDRAIL_WINDOW)
    && Spread(s.log)
  }

  /** Two seals of one key id in one tenure have at least a full window of others between. */
  ghost predicate Spread(log: seq<Sent>) {
    forall i, j | 0 <= i < j < |log| && log[i].tenure == log[j].tenure && log[i].keyId == log[j].keyId ::
      j - i - 1 >= GUARDRAIL_WINDOW
  }

  lemma {:induction false} TenureIdsCover(log: seq<Sent>, tenure: nat, i: nat)
    requires i < |log| && log[i].tenure == tenure
    requires forall k :: i <= k < |log| ==> log[k].tenure == tenure
    ensures |TenureIds(log, tenure)| >= |log| - i
  {
    if i < |log| - 1 { TenureIdsCover(log[..|log| - 1], tenure, i); }
  }

  ghost predicate TenuresAscend(log: seq<Sent>, tenure: nat) {
    && (forall i, j :: 0 <= i < j < |log| ==> log[i].tenure <= log[j].tenure)
    && (forall i :: 0 <= i < |log| ==> log[i].tenure <= tenure)
  }

  lemma PushKeepsNewest(ids: seq<Text>, id: Text)
    ensures PushRecent(Newest(ids, GUARDRAIL_WINDOW), id) == Newest(ids + [id], GUARDRAIL_WINDOW)
  {
  }

  /** An id outside the window was last accepted at least a window ago. */
  lemma UnguardedIsFar(log: seq<Sent>, tenure: nat, id: Text, i: nat)
    requires TenuresAscend(log, tenure) && i < |log| && log[i].tenure == tenure && log[i].keyId == id
    requires id !in Newest(TenureIds(log, tenure), GUARDRAIL_WINDOW)
    ensures |log| - i - 1 >= GUARDRAIL_WINDOW
  {
    TenureIdsCover(log, tenure, i);
    var ids := TenureIds(log, tenure);
    assert ids[i - (|log| - |ids|)] == id;
    NewestHolds(ids, GUARDRAIL_WINDOW, i - (|log| - |ids|));
  }

  lemma NewestHolds<T>(q: seq<T>, n: nat, i: nat)
    requires i < |q|
    ensures |q| - i <= n ==> q[i] in Newest(q, n)
  {
    if |q| - i <= n { assert Newest(q, n)[|Newest(q, n)| - (|q| - i)] == q[i]; }
  }

  /** What a seal does to the sender, if it is accepted. */
  ghost predicate Accepts(s: Sender, s': Sender, id: Text) {
    && id !in s.view.recent && s'.tenure == s.tenure
    && s'.log == s.log + [Sent(id, s.view.counter + 1, s.tenure)]
    && s'.view.counter == s.view.counter + 1 && s'.view.recent == PushRecent(s.view.recent, id)
  }

  lemma EmitOutcome(s: Sender, keep: nat, op: SendOp)
    requires op.Emit?
    ensures Step(s, keep, op) == s || Accepts(s, Step(s, keep, op), op.keyId)
  {
    var (v, r) := Seal(s.view, [], [], op.keyId, op.header, op.plain);
    if r.Err? { assert s.(view := s.view, log := s.log) == s; }
  }

  lemma TenureIdsSnoc(log: seq<Sent>, x: Sent)
    ensures TenureIds(log + [x], x.tenure) == TenureIds(log, x.tenure) + [x.keyId]
  {
    assert (log + [x])[..|log|] == log;
  }

  lemma SpreadSnoc(log: seq<Sent>, x: Sent)
    requires Spread(log)
    requires forall i :: 0 <= i < |log| && log[i].tenure == x.tenure && log[i].keyId == x.keyId ==> |log| - i - 1 >= GUARDRAIL_WINDOW
    ensures Spread(log + [x])
  {
  }

  lemma AcceptedKeepsInv(s: Sender, s': Sender, id: Text)
    requires Inv(s) && TenuresAscend(s.log, s.tenure) && Accepts(s, s', id)
    ensures Inv(s') && TenuresAscend(s'.log, s.tenure)
  {
    var x := Sent(id, s.view.counter + 1, s.tenure);
    TenureIdsSnoc(s.log, x);
    PushKeepsNewest(TenureIds(s.log, s.tenure), id);
    forall i | 0 <= i < |s.log| && s.log[i].tenure == s.tenure && s.log[i].keyId == id
      ensures |s.log| - i - 1 >= GUARDRAIL_WINDOW
    {
      UnguardedIsFar(s.log, s.tenure, id, i);
    }
    SpreadSnoc(s.log, x);
  }

  lemma EmitKeepsInv(s: Sender, keep: nat, op: SendOp)
    requires Inv(s) && TenuresAscend(s.log, s.tenure) && op.Emit?
    ensures Inv(Step(s, keep, op)) && TenuresAscend(Step(s, keep, op).log, s.tenure)
  {
    EmitOutcome(s, keep, op);
    if Step(s, keep, op) != s { AcceptedKeepsInv(s, Step(s, keep, op), op.keyId); }
  }

  lemma {:induction false} RunKeepsInv(cfg: Cfg, ops: seq<SendOp>)
    ensures Inv(Run(cfg, ops)) && TenuresAscend(Run(cfg, ops).log, Run(cfg, ops).tenure)
  {
    if ops != [] {
      var s, op := Run(cfg, ops[..|ops| - 1]), ops[|ops| - 1];
      RunKeepsInv(cfg, ops[..|ops| - 1]);
      if op.Emit? { EmitKeepsInv(s, cfg.keep, op); }
    }
  }

  /** The counters sealed for a peer are 1, 2, 3, ... across all rotations of a process. */
  lemma CountersAreDense(cfg: Cfg, ops: seq<SendOp>)
    ensures var log := Run(cfg, ops).log; forall i :: 0 <= i < |log| ==> log[i].counter == i + 1
  {
    RunKeepsInv(cfg, ops);
  }

  /** Within one tenure of a send epoch, two seals of a key id are separated by at least
      8192 other accepted seals, whatever the run. */
  lemma KeyIdsAreSpread(cfg: Cfg, ops: seq<SendOp>)
    ensures Spread(Run(cfg, ops).log)
  {
    RunKeepsInv(cfg, ops);
  }

  /** A seal is refused for reuse exactly when its key id is one of the last 8192 accepted
      since the last rotation. */
  lemma ReuseRefusedExactly(cfg: Cfg, ops: seq<SendOp>, keyId: Text, header: Entries, plain: Text)
    ensures var s := Run(cfg, ops);
            Seal(s.view, [], [], keyId, header, plain).1 == Err(KeyIdReuse) <==>
            s.view.sendEpoch.Some? && Holds(s.view.epochs, s.view.sendEpoch.value)
            && keyId in Newest(TenureIds(s.log, s.tenure), GUARDRAIL_WINDOW)
  {
    RunKeepsInv(cfg, ops);
  }
}
